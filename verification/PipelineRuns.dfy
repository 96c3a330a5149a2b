/** Runs of the pipeline protocol in which the pushed blocks are executed transaction by transaction. */
module PipelineRuns {
  import opened Types
  import opened Ordering
  import opened Pool
  import opened PoolLaws
  import opened Packing
  import opened PackingLaws
  import opened BlockRuns
  import P = Pipeline
  import L = PipelineLaws

  /** The account nonces after executing `blocks` one after the other, and everything they included. */
  function Execute(envs: Envs, genesis: World, blocks: seq<P.OrderedBlock>): Option<(World, seq<Tx>)> {
    if blocks == [] then Some((genesis, [])) else
      var n := |blocks| - 1;
      match Execute(envs, genesis, blocks[..n])
      case None => None
      case Some((w, done)) =>
        match Pack(envs(n), blocks[n].transactions, Start(w))
        case Built(end) => Some((end.world, done + TxsOf(end.included)))
        case _ => None
  }

  /** The hashes of what the last of `blocks` includes. */
  function MinedIn(envs: Envs, genesis: World, blocks: seq<P.OrderedBlock>): set<TxHash>
    requires blocks != [] && Execute(envs, genesis, blocks).Some?
  {
    var n := |blocks| - 1;
    var (w, done) := Execute(envs, genesis, blocks[..n]).value;
    Hashes(TxsOf(Pack(envs(n), blocks[n].transactions, Start(w)).acc.included))
  }

  /** Every result reports what its block included. */
  ghost predicate Reported(envs: Envs, genesis: World, st: P.State) {
    forall n :: 0 < n <= |st.results| ==> ReportedAt(envs, genesis, st, n)
  }

  ghost predicate ReportedAt(envs: Envs, genesis: World, st: P.State, n: nat)
    requires 0 < n <= |st.results|
  {
    n <= |st.pushed| && Execute(envs, genesis, st.pushed[..n]).Some? &&
    st.results[n - 1].mined == MinedIn(envs, genesis, st.pushed[..n])
  }

  /**
   The pipeline refines the run of blocks: executing its first `n` blocks is the run of the
   batches of rounds, and the pool holds what that run leaves pending.
   */
  lemma {:induction false} Refines(cfg: P.Config, dag: nat -> Subdag, envs: Envs, genesis: World, st: P.State, n: nat)
    requires L.Inv(cfg, dag, st) && Reported(envs, genesis, st) && 0 < n <= |st.results|
    ensures Execute(envs, genesis, st.pushed[..n]).Some?
    ensures var (w, done) := Execute(envs, genesis, st.pushed[..n]).value;
            Run(envs, genesis, Batches(dag, cfg.k, n - 1)) ==
            Some((Chain(w, PendingAfter(L.Steps(dag, cfg.k, st.results[..n]))), done))
  {
    hide Reorder, Without, RoundTxs, FirstRound, L.EpochAfter;
    assert ReportedAt(envs, genesis, st, n);
    var blocks := st.pushed[..n];
    assert blocks[..n - 1] == st.pushed[..n - 1];
    if n == 1 {
      FirstExecutes(envs, genesis, blocks);
    } else {
      Refines(cfg, dag, envs, genesis, st, n - 1);
      NextExecutes(cfg, dag, envs, genesis, st, n);
    }
  }

  lemma FirstExecutes(envs: Envs, genesis: World, blocks: seq<P.OrderedBlock>)
    requires |blocks| == 1 && blocks[0].transactions == []
    ensures Execute(envs, genesis, blocks) == Some((genesis, []))
  {
    assert blocks[..0] == [];
    assert Pack(envs(0), [], Start(genesis)) == Built(Start(genesis));
    assert [] + TxsOf(Start(genesis).included) == [];
  }

  /** Executing one more block, whose transactions are the proposal of a chain, is that chain's next block. */
  lemma ExecuteSnoc(envs: Envs, genesis: World, blocks: seq<P.OrderedBlock>, c: Chain, batch: seq<Tx>)
    requires blocks != [] && Execute(envs, genesis, blocks).Some?
    requires Execute(envs, genesis, blocks[..|blocks| - 1]).value.0 == c.world
    requires blocks[|blocks| - 1].transactions == ProposalOf(c, batch)
    ensures NextBlock(envs(|blocks| - 1), c, batch).Some?
    ensures var (next, more) := NextBlock(envs(|blocks| - 1), c, batch).value;
            Execute(envs, genesis, blocks).value ==
            (next.world, Execute(envs, genesis, blocks[..|blocks| - 1]).value.1 + more) &&
            next.pending == Without(ProposalOf(c, batch), MinedIn(envs, genesis, blocks))
  {
    hide Pack, Without, Reorder, Hashes, TxsOf;
  }

  lemma NextExecutes(cfg: P.Config, dag: nat -> Subdag, envs: Envs, genesis: World, st: P.State, n: nat)
    requires L.Inv(cfg, dag, st) && 1 < n <= |st.results| && ReportedAt(envs, genesis, st, n)
    requires Execute(envs, genesis, st.pushed[..n - 1]).Some?
    requires var (w, done) := Execute(envs, genesis, st.pushed[..n - 1]).value;
             Run(envs, genesis, Batches(dag, cfg.k, n - 2)) ==
             Some((Chain(w, PendingAfter(L.Steps(dag, cfg.k, st.results[..n - 1]))), done))
    ensures var (w, done) := Execute(envs, genesis, st.pushed[..n]).value;
            Run(envs, genesis, Batches(dag, cfg.k, n - 1)) ==
            Some((Chain(w, PendingAfter(L.Steps(dag, cfg.k, st.results[..n]))), done))
  {
    hide Reorder, Without, RoundTxs, FirstRound, PendingAfter, L.Steps, L.Inv, Execute, Run, NextBlock, MinedIn;
    var init, batch := Batches(dag, cfg.k, n - 2), RoundTxs(dag, FirstRound(cfg.k, n - 2), cfg.k);
    var c := Run(envs, genesis, init).value.0;
    assert st.pushed[..n][..n - 1] == st.pushed[..n - 1];
    L.NextTransactions(cfg, dag, st, n - 1);
    L.StepsExtend(dag, cfg.k, st.results[..n - 1], st.results[n - 1]);
    assert st.results[..n - 1] + [st.results[n - 1]] == st.results[..n];
    ExecuteSnoc(envs, genesis, st.pushed[..n], c, batch);
    BatchesSize(dag, cfg.k, n - 2);
    RunSnoc(envs, genesis, init, batch);
  }

  // ----- whole runs -----

  /** The nonce rule alone: whatever the blocks, executing them includes each sender's nonces one by one. */
  lemma {:induction false} ExecutionConsecutive(envs: Envs, genesis: World, blocks: seq<P.OrderedBlock>)
    requires AllLawful(envs) && Execute(envs, genesis, blocks).Some?
    ensures var (w, done) := Execute(envs, genesis, blocks).value; Consecutive(genesis, done, w) && NoDuplicateKey(done)
  {
    var (w, done) := Execute(envs, genesis, blocks).value;
    if blocks == [] {
      forall s
        ensures ConsecutiveFor(genesis, [], genesis, s)
      {
      }
    } else {
      var n := |blocks| - 1;
      ExecutionConsecutive(envs, genesis, blocks[..n]);
      var (before, earlier) := Execute(envs, genesis, blocks[..n]).value;
      var end := Pack(envs(n), blocks[n].transactions, Start(before)).acc;
      PayloadConsecutive(envs(n), blocks[n].transactions, before, end);
      ConsecutiveJoins(genesis, earlier, before, TxsOf(end.included), w);
    }
    ConsecutiveDistinct(genesis, done, w);
  }

  /** `Refines` for the whole of a run of the protocol. */
  lemma RunRefines(cfg: P.Config, dag: nat -> Subdag, envs: Envs, genesis: World, events: seq<P.Event>, m: nat)
    requires L.Legal(cfg, dag, events)
    requires P.After(cfg, events).Next? ==>
               Reported(envs, genesis, P.After(cfg, events).state) && P.After(cfg, events).state.canonical == m + 1
    ensures P.After(cfg, events).Next?
    ensures var st := P.After(cfg, events).state;
            |st.results| <= |st.pushed| && Execute(envs, genesis, st.pushed[..|st.results|]).Some? &&
            var (w, done) := Execute(envs, genesis, st.pushed[..|st.results|]).value;
            Run(envs, genesis, Batches(dag, cfg.k, m)) == Some((Chain(w, st.pool.pending), done))
  {
    hide Execute, Run, Batches, PendingAfter, L.Steps, P.After, L.Legal, Reported;
    L.Safety(cfg, dag, events);
    var st := P.After(cfg, events).state;
    Refines(cfg, dag, envs, genesis, st, m + 1);
    assert st.results[..m + 1] == st.results;
  }

  /**
   Over every run of the protocol, the rounds consumed so far are accounted for: of the
   transactions in rounds `1` to `k m`, each one that no later one with its key replaced is
   executed or still pending, nothing else is, and none is executed twice. Executed ones that
   are pending again, because they were committed again, are below their account nonce.
   */
  lemma ExecutedOrPending(
    cfg: P.Config, dag: nat -> Subdag, envs: Envs, genesis: World, events: seq<P.Event>, m: nat)
    requires L.Legal(cfg, dag, events) && AllLawful(envs) && HashesIdentify(RoundTxs(dag, 1, cfg.k * m))
    requires P.After(cfg, events).Next? ==>
               Reported(envs, genesis, P.After(cfg, events).state) && P.After(cfg, events).state.canonical == m + 1
    ensures P.After(cfg, events).Next?
    ensures var st := P.After(cfg, events).state; var consumed := RoundTxs(dag, 1, cfg.k * m);
            |st.results| <= |st.pushed| && Execute(envs, genesis, st.pushed[..|st.results|]).Some? &&
            var (w, done) := Execute(envs, genesis, st.pushed[..|st.results|]).value;
            && (forall t :: IsLastWriter(consumed, t) ==> t in done || t in st.pool.pending)
            && (forall t :: t in done || t in st.pool.pending ==> t in consumed)
            && NoDuplicateKey(done)
            && forall t :: t in done ==> t.nonce < NonceOf(w, t.sender)
  {
    hide Execute, Run, Batches, RoundTxs, P.After, L.Legal, IsLastWriter, Reported;
    RunRefines(cfg, dag, envs, genesis, events, m);
    var st := P.After(cfg, events).state;
    BatchesConcat(dag, cfg.k, m);
    FirstRoundIs(cfg.k, m);
    RunConserves(envs, genesis, Batches(dag, cfg.k, m));
    ExecutionConsecutive(envs, genesis, st.pushed[..|st.results|]);
    var (w, done) := Execute(envs, genesis, st.pushed[..|st.results|]).value;
    forall t | t in done
      ensures t.nonce < NonceOf(w, t.sender)
    {
      BelowNonce(genesis, done, w, t);
    }
  }

  lemma BelowNonce(genesis: World, done: seq<Tx>, w: World, t: Tx)
    requires Consecutive(genesis, done, w) && t in done
    ensures t.nonce < NonceOf(w, t.sender)
  {
    assert ConsecutiveFor(genesis, done, w, t.sender);
    OfShape(done, t.sender);
    assert t in Of(done, t.sender);
  }

  /** The nonce of `s` once all blocks whose results have arrived are executed. */
  function NonceAt(envs: Envs, genesis: World, st: P.State, s: Address): nat
    requires |st.results| <= |st.pushed| && Execute(envs, genesis, st.pushed[..|st.results|]).Some?
  {
    NonceOf(Execute(envs, genesis, st.pushed[..|st.results|]).value.0, s)
  }

  /**
   End to end: two nodes that have consumed the same rounds of one DAG have the same account
   nonces, whatever their numbers of rounds per block, the order and repetition in which the
   sub-DAGs reached them, and the ticks and failed pushes in between. Each nonce is the
   least one from genesis on that no consumed transaction of its sender carries.
   */
  lemma SameRoundsSameNonces(
    cfgA: P.Config, cfgB: P.Config, dag: nat -> Subdag, envsA: Envs, envsB: Envs, genesis: World,
    a: seq<P.Event>, b: seq<P.Event>, m: nat, n: nat, s: Address)
    requires L.Legal(cfgA, dag, a) && L.Legal(cfgB, dag, b)
    requires P.After(cfgA, a).Next? ==>
               Reported(envsA, genesis, P.After(cfgA, a).state) && P.After(cfgA, a).state.canonical == m + 1
    requires P.After(cfgB, b).Next? ==>
               Reported(envsB, genesis, P.After(cfgB, b).state) && P.After(cfgB, b).state.canonical == n + 1
    requires cfgA.k * m == cfgB.k * n
    requires AllLawful(envsA) && AllMatching(envsA) && AllLawful(envsB) && AllMatching(envsB)
    requires HashesIdentify(RoundTxs(dag, 1, cfgA.k * m))
    requires RoomyRun(envsA, genesis, Batches(dag, cfgA.k, m)) && RoomyRun(envsB, genesis, Batches(dag, cfgB.k, n))
    ensures P.After(cfgA, a).Next? && P.After(cfgB, b).Next?
    ensures var x, y := P.After(cfgA, a).state, P.After(cfgB, b).state;
            |x.results| <= |x.pushed| && Execute(envsA, genesis, x.pushed[..|x.results|]).Some? &&
            |y.results| <= |y.pushed| && Execute(envsB, genesis, y.pushed[..|y.results|]).Some? &&
            NonceAt(envsA, genesis, x, s) == NonceAt(envsB, genesis, y, s) &&
            IsGap(Nonces(Of(RoundTxs(dag, 1, cfgA.k * m), s)), NonceOf(genesis, s), NonceAt(envsA, genesis, x, s))
  {
    hide Execute, Run, Batches, RoundTxs, RoomyRun, P.After, L.Legal, Reported;
    hide AllLawful, AllMatching, HashesIdentify, IsGap, Nonces, Of;
    RunRefines(cfgA, dag, envsA, genesis, a, m);
    RunRefines(cfgB, dag, envsB, genesis, b, n);
    RoundsPerBlockInvariance(envsA, envsB, genesis, dag, cfgA.k, m, cfgB.k, n, s);
  }
}
