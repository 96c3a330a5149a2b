/** Runs of blocks: the pool's proposals packed one after the other, each on the state its predecessor left. */
module BlockRuns {
  import opened Sequences
  import opened Types
  import opened Ordering
  import opened OrderingLaws
  import opened Pool
  import opened PoolLaws
  import opened Packing
  import opened PackingLaws

  /** The account nonces and the pending transactions between two blocks. */
  datatype Chain = Chain(world: World, pending: seq<Tx>)

  function Hashes(txs: seq<Tx>): set<TxHash> {
    set t | t in txs :: t.hash
  }

  function ProposalOf(c: Chain, batch: seq<Tx>): seq<Tx> {
    Reorder(c.pending + batch)
  }

  /** The chain after the block that consumes `batch`, and what the block included, if it was built. */
  function NextBlock(env: Env, c: Chain, batch: seq<Tx>): Option<(Chain, seq<Tx>)> {
    var proposal := ProposalOf(c, batch);
    match Pack(env, proposal, Start(c.world))
    case Built(end) =>
      var mined := TxsOf(end.included);
      Some((Chain(end.world, Without(proposal, Hashes(mined))), mined))
    case _ => None
  }

  /**
   `try_build`: packs the pool's proposal, or nothing while the queue is too short. Nothing
   looks for a complete batch first, so the assertion in the pool may fire: then there is no outcome.
   */
  method TryBuild(env: Env, pool: ConsensusPool, parent: World) returns (outcome: Option<Outcome>)
    ensures pool.View() == old(pool.View())
    ensures outcome == None <==> |pool.queue| >= pool.perBlock && !BatchReady(pool.View(), pool.perBlock)
    ensures BatchReady(pool.View(), pool.perBlock) ==>
              outcome == Some(Pack(env, Proposal(pool.View(), pool.perBlock), Start(parent)))
    ensures |pool.queue| < pool.perBlock ==> outcome == Some(Built(Start(parent)))
  {
    if BatchReady(pool.View(), pool.perBlock) {
      ReadyPassesGuard(pool.View(), pool.perBlock);
    }
    var proposal := pool.GetProposalTransactions();
    if proposal == None {
      return None;
    }
    var best := new BestMysticetiTransactions(proposal.value);
    var payload := MysticetiEthereumPayload(env, best, parent);
    return Some(payload);
  }

  /** The block environment of each block of a run. */
  type Envs = nat -> Env

  /** The chain and everything included after a block for each batch. */
  function Run(envs: Envs, genesis: World, batches: seq<seq<Tx>>): Option<(Chain, seq<Tx>)> {
    if batches == [] then Some((Chain(genesis, []), [])) else
      match Run(envs, genesis, batches[..|batches| - 1])
      case None => None
      case Some((c, mined)) =>
        match NextBlock(envs(|batches|), c, batches[|batches| - 1])
        case None => None
        case Some((next, more)) => Some((next, mined + more))
  }

  ghost predicate AllLawful(envs: Envs) {
    forall n: nat :: Lawful(envs(n))
  }

  ghost predicate AllMatching(envs: Envs) {
    forall n: nat :: AcceptsMatching(envs(n))
  }

  lemma RunSnoc(envs: Envs, genesis: World, batches: seq<seq<Tx>>, last: seq<Tx>)
    requires Run(envs, genesis, batches).Some?
    requires NextBlock(envs(|batches| + 1), Run(envs, genesis, batches).value.0, last).Some?
    ensures var (c, mined) := Run(envs, genesis, batches).value;
            var (next, more) := NextBlock(envs(|batches| + 1), c, last).value;
            Run(envs, genesis, batches + [last]) == Some((next, mined + more))
  {
    hide NextBlock;
    var all := batches + [last];
    assert all[..|all| - 1] == batches;
  }

  // ----- no double inclusion -----

  /**
   Over a run under any gas and blob limits, each sender's included nonces are its account
   nonces one by one from genesis on: none is skipped and none is included twice, even when
   a transaction is committed again later.
   */
  lemma {:induction false} RunConsecutive(envs: Envs, genesis: World, batches: seq<seq<Tx>>)
    requires AllLawful(envs) && Run(envs, genesis, batches).Some?
    ensures var (c, mined) := Run(envs, genesis, batches).value;
            Consecutive(genesis, mined, c.world) && NoDuplicateKey(mined)
  {
    var (c, mined) := Run(envs, genesis, batches).value;
    if batches == [] {
      forall s
        ensures ConsecutiveFor(genesis, [], genesis, s)
      {
      }
    } else {
      var init, last := batches[..|batches| - 1], batches[|batches| - 1];
      RunConsecutive(envs, genesis, init);
      var env := envs(|batches|);
      var (before, earlier) := Run(envs, genesis, init).value;
      var (next, more) := NextBlock(env, before, last).value;
      var proposal := ProposalOf(before, last);
      PayloadConsecutive(env, proposal, before.world, Pack(env, proposal, Start(before.world)).acc);
      ConsecutiveJoins(genesis, earlier, before.world, more, next.world);
    }
    ConsecutiveDistinct(genesis, mined, c.world);
  }

  /** Whether a stale transaction precedes a due one depends on the keys only. */
  lemma StaleByKeys(w: World, a: seq<Tx>, b: seq<Tx>)
    requires Keys(a) == Keys(b) && NoStaleBeforeDue(w, a)
    ensures NoStaleBeforeDue(w, b)
  {
    forall t, u | t in b && u in b && t.sender == u.sender && t.nonce < NonceOf(w, t.sender)
      ensures u.nonce != NonceOf(w, u.sender)
    {
      assert KeyOf(t) in Keys(a) && KeyOf(u) in Keys(a);
      var x, y :| x in a && KeyOf(x) == KeyOf(t) && y in a && KeyOf(y) == KeyOf(u);
    }
  }

  /**
   Dropping the dependants of rejected transactions would build the same payloads from the
   pool's proposal, whatever execution does, if and only if no sender has both a stale and
   a due transaction in the pending list and the batch.
   */
  lemma ProposalRefines(c: Chain, batch: seq<Tx>)
    ensures SameUnderAnyExecution(ProposalOf(c, batch), c.world) <==> NoStaleBeforeDue(c.world, c.pending + batch)
  {
    ReorderContents(c.pending + batch);
    ReorderKeys(c.pending + batch);
    NoOpMarkInvalidIff(ProposalOf(c, batch), c.world);
    if NoStaleBeforeDue(c.world, c.pending + batch) {
      StaleByKeys(c.world, c.pending + batch, ProposalOf(c, batch));
    }
    if NoStaleBeforeDue(c.world, ProposalOf(c, batch)) {
      StaleByKeys(c.world, ProposalOf(c, batch), c.pending + batch);
    }
  }

  // ----- nothing lost -----

  /** Equal hashes mean equal transactions. */
  ghost predicate HashesIdentify(txs: seq<Tx>) {
    forall t, u :: t in txs && u in txs && t.hash == u.hash ==> t == u
  }

  /**
   Of what was consumed, every transaction that no later one with its key replaced is mined
   or pending; and nothing else is.
   */
  ghost predicate Conserved(consumed: seq<Tx>, c: Chain, mined: seq<Tx>) {
    && NoDuplicateKey(c.pending)
    && (forall t :: t in mined || t in c.pending ==> t in consumed)
    && forall t :: IsLastWriter(consumed, t) ==> t in mined || t in c.pending
  }

  /** A transaction of the proposal is included or stays pending, and what is included comes from the proposal. */
  lemma IncludedOrLeft(env: Env, c: Chain, batch: seq<Tx>)
    requires Lawful(env) && NextBlock(env, c, batch).Some? && HashesIdentify(c.pending + batch)
    ensures var (next, more) := NextBlock(env, c, batch).value;
            && NoDuplicateKey(next.pending)
            && (forall t :: t in more || t in next.pending ==> t in c.pending + batch)
            && forall t :: IsLastWriter(c.pending + batch, t) ==> t in more || t in next.pending
  {
    var (next, more) := NextBlock(env, c, batch).value;
    var proposal := ProposalOf(c, batch);
    ReorderContents(c.pending + batch);
    WithoutMeaning(proposal, Hashes(more));
    WithoutAscends(proposal, Hashes(more));
    PayloadBalanced(env, proposal, c.world, Pack(env, proposal, Start(c.world)).acc);
    forall t | t in more
      ensures t in proposal
    {
      SubsequenceElements(more, proposal, t);
    }
  }

  lemma BlockConserves(env: Env, consumed: seq<Tx>, c: Chain, mined: seq<Tx>, batch: seq<Tx>)
    requires Lawful(env) && Conserved(consumed, c, mined) && HashesIdentify(consumed + batch)
    requires NextBlock(env, c, batch).Some?
    ensures var (next, more) := NextBlock(env, c, batch).value; Conserved(consumed + batch, next, mined + more)
  {
    hide NextBlock, IsLastWriter;
    assert forall t :: t in c.pending + batch ==> t in consumed + batch;
    IncludedOrLeft(env, c, batch);
    var (next, more) := NextBlock(env, c, batch).value;
    forall t | IsLastWriter(consumed + batch, t)
      ensures t in mined + more || t in next.pending
    {
      LastWriterAppend(consumed, batch, t);
      LastWriterSplit(c.pending, batch, t);
    }
  }

  /** Over a run under any limits, nothing that was consumed is lost and nothing else appears. */
  lemma {:induction false} RunConserves(envs: Envs, genesis: World, batches: seq<seq<Tx>>)
    requires AllLawful(envs) && Run(envs, genesis, batches).Some? && HashesIdentify(Concat(batches))
    ensures var (c, mined) := Run(envs, genesis, batches).value; Conserved(Concat(batches), c, mined)
  {
    hide Conserved, NextBlock;
    if batches == [] {
      assert Conserved([], Chain(genesis, []), []) by { NothingConsumed(genesis); }
    } else {
      var init, last := batches[..|batches| - 1], batches[|batches| - 1];
      assert forall t :: t in Concat(init) ==> t in Concat(batches);
      RunConserves(envs, genesis, init);
      var (before, earlier) := Run(envs, genesis, init).value;
      BlockConserves(envs(|batches|), Concat(init), before, earlier, last);
    }
  }

  lemma NothingConsumed(genesis: World)
    ensures Conserved([], Chain(genesis, []), [])
  {
  }

  // ----- the nonce a run ends at -----

  /** `g` is the least number from `a` on that is not in `ks`. */
  ghost predicate IsGap(ks: set<nat>, a: nat, g: nat) {
    a <= g && g !in ks && forall x :: a <= x < g ==> x in ks
  }

  function GasLimits(txs: seq<Tx>): nat {
    if txs == [] then 0 else txs[0].gasLimit + GasLimits(txs[1..])
  }

  /** The execution accepts a transaction exactly when it carries its sender's nonce. */
  ghost predicate AcceptsMatching(env: Env) {
    forall w, t :: AcceptsMatchingAt(env, w, t)
  }

  ghost predicate AcceptsMatchingAt(env: Env, w: World, t: Tx) {
    env.execute(w, t) != Fatal && (t.nonce == NonceOf(w, t.sender) ==> env.execute(w, t).Executed?)
  }

  /** The limits of the block do not bind for `txs` on top of `gas` and `blobs`, and every sidecar is in order. */
  ghost predicate Roomy(env: Env, txs: seq<Tx>, gas: nat, blobs: nat) {
    && gas + GasLimits(txs) <= env.gasLimit < U64
    && blobs + AllBlobs(txs) <= env.maxBlobs
    && (forall i :: !env.cancelled(i))
    && forall t :: t in txs && t.blobs.Some? ==> env.sidecar(t) == Good
  }

  /** In a roomy block only the nonce decides. */
  lemma RoomyExamine(env: Env, acc: Acc, txs: seq<Tx>)
    requires Lawful(env) && AcceptsMatching(env) && txs != [] && Roomy(env, txs, acc.gas, acc.blobs)
    ensures match Examine(env, acc, txs[0])
            case Take(next) =>
              txs[0].nonce == NonceOf(acc.world, txs[0].sender) && Bumped(acc.world, next.world, txs[0].sender) &&
              Roomy(env, txs[1..], next.gas, next.blobs)
            case Skip(next, _) =>
              txs[0].nonce != NonceOf(acc.world, txs[0].sender) && next.world == acc.world &&
              Roomy(env, txs[1..], next.gas, next.blobs)
            case _ => false
  {
    var t := txs[0];
    assert t in txs;
    assert forall x :: x in txs[1..] ==> x in txs;
    assert LawfulAt(env, acc.world, t) && AcceptsMatchingAt(env, acc.world, t);
  }

  lemma OfFront(txs: seq<Tx>, s: Address)
    requires txs != []
    ensures Of(txs, s) == (if txs[0].sender == s then [txs[0]] else []) + Of(txs[1..], s)
  {
    OfSplit(txs, 1, s);
    assert txs[..1] == [txs[0]] && [txs[0]][..0] == [];
  }

  /** Looking at the lowest nonce first moves the account nonce towards the gap, or leaves the gap alone. */
  lemma GapInsert(rest: set<nat>, x: nat, a: nat, g: nat)
    requires forall y :: y in rest ==> x < y
    requires IsGap(rest, if x == a then a + 1 else a, g)
    ensures IsGap({x} + rest, a, g)
  {
    assert a < x ==> a !in rest;
  }

  lemma GapStep(txs: seq<Tx>, s: Address, w: World, next: World, g: nat)
    requires txs != [] && AscendingPerSender(txs)
    requires var t := txs[0];
             if t.nonce == NonceOf(w, t.sender) then Bumped(w, next, t.sender) else next == w
    requires IsGap(Nonces(Of(txs[1..], s)), NonceOf(next, s), g)
    ensures IsGap(Nonces(Of(txs, s)), NonceOf(w, s), g)
  {
    var t, rest := txs[0], txs[1..];
    OfFront(txs, s);
    assert NonceOf(next, s) == NonceOf(w, s) + if t.nonce == NonceOf(w, t.sender) && s == t.sender then 1 else 0;
    if t.sender == s {
      NoncesCons(t, Of(rest, s));
      OfShape(rest, s);
      assert forall i :: 0 <= i < |rest| ==> rest[i] == txs[i + 1];
      GapInsert(Nonces(Of(rest, s)), t.nonce, NonceOf(w, s), g);
    } else {
      assert Of(txs, s) == Of(rest, s);
    }
  }

  lemma NoncesCons(t: Tx, q: seq<Tx>)
    ensures Nonces([t] + q) == {t.nonce} + Nonces(q)
  {
    assert forall x :: x in [t] + q <==> x == t || x in q;
  }

  lemma {:induction false} PackGap(env: Env, txs: seq<Tx>, acc: Acc, s: Address)
    requires Lawful(env) && AcceptsMatching(env)
    requires AscendingPerSender(txs) && Roomy(env, txs, acc.gas, acc.blobs)
    ensures Pack(env, txs, acc).Built?
    ensures IsGap(Nonces(Of(txs, s)), NonceOf(acc.world, s), NonceOf(Pack(env, txs, acc).acc.world, s))
    decreases |txs|
  {
    if txs == [] {
    } else {
      RoomyExamine(env, acc, txs);
      var next := Examine(env, acc, txs[0]).next;
      AscendingTail(txs);
      PackGap(env, txs[1..], next, s);
      assert Examine(env, acc, txs[0]).Skip? ==> next.world == acc.world;
      GapStep(txs, s, acc.world, next.world, NonceOf(Pack(env, txs[1..], next).acc.world, s));
    }
  }

  /** Every block of the run has room for its whole proposal. */
  ghost predicate RoomyRun(envs: Envs, genesis: World, batches: seq<seq<Tx>>) {
    batches == [] ||
    var init := batches[..|batches| - 1];
    RoomyRun(envs, genesis, init) &&
    (Run(envs, genesis, init).Some? ==>
       Roomy(envs(|batches|), ProposalOf(Run(envs, genesis, init).value.0, batches[|batches| - 1]), 0, 0))
  }

  /** Between two blocks: what was consumed of `s` and is not pending any more lies below its account nonce. */
  ghost predicate Settled(genesis: World, consumed: seq<Tx>, c: Chain, s: Address) {
    && IsGap(Nonces(Of(consumed, s)), NonceOf(genesis, s), NonceOf(c.world, s))
    && (forall t :: t in c.pending ==> t in consumed)
    && forall x :: x in Nonces(Of(consumed, s)) && NonceOf(c.world, s) <= x ==> x in Nonces(Of(c.pending, s))
  }

  lemma NoncesUnion(a: seq<Tx>, b: seq<Tx>, s: Address)
    ensures Nonces(Of(a + b, s)) == Nonces(Of(a, s)) + Nonces(Of(b, s))
  {
    OfAppend(a, b, s);
    assert forall t :: t in Of(a + b, s) <==> t in Of(a, s) || t in Of(b, s);
  }

  lemma NoncesOfReorder(txs: seq<Tx>, s: Address)
    ensures Nonces(Of(Reorder(txs), s)) == Nonces(Of(txs, s))
  {
    LatestOfReorder(txs, s);
    LatestKeys(txs, s);
    LatestKeys(Reorder(txs), s);
  }

  lemma NoncesMeaning(txs: seq<Tx>, s: Address)
    ensures forall x :: x in Nonces(Of(txs, s)) <==> exists t :: t in txs && t.sender == s && t.nonce == x
  {
    OfShape(txs, s);
  }

  /** A transaction at or above its sender's new account nonce was not mined. */
  lemma NotMined(env: Env, proposal: seq<Tx>, parent: World, end: Acc, t: Tx)
    requires Lawful(env) && Pack(env, proposal, Start(parent)) == Built(end)
    requires HashesIdentify(proposal) && t in proposal && NonceOf(end.world, t.sender) <= t.nonce
    ensures t.hash !in Hashes(TxsOf(end.included))
  {
    var mined, s := TxsOf(end.included), t.sender;
    PayloadConsecutive(env, proposal, parent, end);
    assert ConsecutiveFor(parent, mined, end.world, s);
    PayloadBalanced(env, proposal, parent, end);
    OfShape(mined, s);
    assert t !in Of(mined, s);
    if t.hash in Hashes(mined) {
      var u :| u in mined && u.hash == t.hash;
      SubsequenceElements(mined, proposal, u);
    }
  }

  lemma KeptNonces(txs: seq<Tx>, hashes: set<TxHash>, s: Address, low: nat)
    requires forall t :: t in txs && t.sender == s && low <= t.nonce ==> t.hash !in hashes
    ensures forall x :: x in Nonces(Of(txs, s)) && low <= x ==> x in Nonces(Of(Without(txs, hashes), s))
  {
    WithoutMeaning(txs, hashes);
    NoncesMeaning(txs, s);
    NoncesMeaning(Without(txs, hashes), s);
    forall x | x in Nonces(Of(txs, s)) && low <= x
      ensures x in Nonces(Of(Without(txs, hashes), s))
    {
      var t :| t in txs && t.sender == s && t.nonce == x;
      assert t in Without(txs, hashes);
    }
  }

  /** What the block leaves pending of `s` from its new account nonce on. */
  lemma LeftPending(env: Env, c: Chain, batch: seq<Tx>, s: Address)
    requires Lawful(env) && NextBlock(env, c, batch).Some? && HashesIdentify(c.pending + batch)
    ensures var next := NextBlock(env, c, batch).value.0;
            (forall t :: t in next.pending ==> t in c.pending + batch) &&
            forall x :: x in Nonces(Of(c.pending + batch, s)) && NonceOf(next.world, s) <= x ==> x in Nonces(Of(next.pending, s))
  {
    hide Reorder, Of, Without, TxsOf, Lawful;
    var proposal := ProposalOf(c, batch);
    var end := Pack(env, proposal, Start(c.world)).acc;
    var hashes := Hashes(TxsOf(end.included));
    ReorderContents(c.pending + batch);
    WithoutMeaning(proposal, hashes);
    NoncesOfReorder(c.pending + batch, s);
    forall t | t in proposal && t.sender == s && NonceOf(end.world, s) <= t.nonce
      ensures t.hash !in hashes
    {
      NotMined(env, proposal, c.world, end, t);
    }
    KeptNonces(proposal, hashes, s, NonceOf(end.world, s));
  }

  lemma SettledSets(consumed: set<nat>, pending: set<nat>, batch: set<nat>, left: set<nat>, a: nat, g: nat, h: nat)
    requires pending <= consumed && IsGap(consumed, a, g) && forall x :: x in consumed && g <= x ==> x in pending
    requires IsGap(pending + batch, g, h) && forall x :: x in pending + batch && h <= x ==> x in left
    ensures IsGap(consumed + batch, a, h) && forall x :: x in consumed + batch && h <= x ==> x in left
  {
    forall x | a <= x < h
      ensures x in consumed + batch
    {
      assert x < g ==> x in consumed;
      assert x >= g ==> x in pending + batch;
    }
  }

  lemma SettledStep(env: Env, genesis: World, consumed: seq<Tx>, c: Chain, batch: seq<Tx>, s: Address)
    requires Lawful(env) && AcceptsMatching(env) && HashesIdentify(consumed + batch)
    requires Settled(genesis, consumed, c, s) && Roomy(env, ProposalOf(c, batch), 0, 0)
    ensures NextBlock(env, c, batch).Some?
    ensures Settled(genesis, consumed + batch, NextBlock(env, c, batch).value.0, s)
  {
    var all := c.pending + batch;
    ReorderContents(all);
    PackGap(env, ProposalOf(c, batch), Start(c.world), s);
    NoncesOfReorder(all, s);
    NoncesUnion(c.pending, batch, s);
    NoncesUnion(consumed, batch, s);
    assert forall t :: t in all ==> t in consumed + batch;
    LeftPending(env, c, batch, s);
    var next := NextBlock(env, c, batch).value.0;
    NoncesMeaning(c.pending, s);
    NoncesMeaning(consumed, s);
    SettledSets(Nonces(Of(consumed, s)), Nonces(Of(c.pending, s)), Nonces(Of(batch, s)), Nonces(Of(next.pending, s)),
                NonceOf(genesis, s), NonceOf(c.world, s), NonceOf(next.world, s));
  }

  lemma {:induction false} RunSettled(envs: Envs, genesis: World, batches: seq<seq<Tx>>, s: Address)
    requires AllLawful(envs) && AllMatching(envs)
    requires HashesIdentify(Concat(batches)) && RoomyRun(envs, genesis, batches)
    ensures Run(envs, genesis, batches).Some?
    ensures Settled(genesis, Concat(batches), Run(envs, genesis, batches).value.0, s)
  {
    if batches == [] {
    } else {
      var init, last := batches[..|batches| - 1], batches[|batches| - 1];
      assert forall t :: t in Concat(init) ==> t in Concat(batches);
      RunSettled(envs, genesis, init, s);
      SettledStep(envs(|batches|), genesis, Concat(init), Run(envs, genesis, init).value.0, last, s);
    }
  }

  /**
   Batching invariance: when the block limits do not bind, every run that consumes the same
   set of keys ends with the same account nonces, however the transactions are ordered and
   cut into blocks and whatever else the blocks execute to. Each is the least nonce from
   the genesis nonce on that was never committed.
   */
  lemma BatchingInvariance(envsA: Envs, envsB: Envs, genesis: World, a: seq<seq<Tx>>, b: seq<seq<Tx>>, s: Address)
    requires AllLawful(envsA) && AllMatching(envsA) && AllLawful(envsB) && AllMatching(envsB)
    requires HashesIdentify(Concat(a)) && HashesIdentify(Concat(b))
    requires RoomyRun(envsA, genesis, a) && RoomyRun(envsB, genesis, b)
    requires Keys(Concat(a)) == Keys(Concat(b))
    ensures Run(envsA, genesis, a).Some? && Run(envsB, genesis, b).Some?
    ensures var g := NonceOf(Run(envsA, genesis, a).value.0.world, s);
            g == NonceOf(Run(envsB, genesis, b).value.0.world, s) &&
            IsGap(Nonces(Of(Concat(a), s)), NonceOf(genesis, s), g)
  {
    RunSettled(envsA, genesis, a, s);
    RunSettled(envsB, genesis, b, s);
    SameKeysSameNonces(Concat(a), Concat(b), s);
    SameKeysSameNonces(Concat(b), Concat(a), s);
    assert Nonces(Of(Concat(a), s)) == Nonces(Of(Concat(b), s));
  }

  lemma SameKeysSameNonces(a: seq<Tx>, b: seq<Tx>, s: Address)
    requires Keys(a) <= Keys(b)
    ensures Nonces(Of(a, s)) <= Nonces(Of(b, s))
  {
    NoncesMeaning(a, s);
    NoncesMeaning(b, s);
    forall x | x in Nonces(Of(a, s))
      ensures x in Nonces(Of(b, s))
    {
      assert Key(s, x) in Keys(a);
    }
  }

  // ----- rounds cut into blocks -----

  /** The batches of `blocks` blocks of `k` rounds each, from round 1 on. */
  function Batches(dag: nat -> Subdag, k: nat, blocks: nat): seq<seq<Tx>> {
    if blocks == 0 then [] else Batches(dag, k, blocks - 1) + [RoundTxs(dag, FirstRound(k, blocks - 1), k)]
  }

  lemma {:induction false} BatchesSize(dag: nat -> Subdag, k: nat, blocks: nat)
    ensures |Batches(dag, k, blocks)| == blocks
  {
    if blocks == 0 {
    } else {
      BatchesSize(dag, k, blocks - 1);
    }
  }

  lemma {:induction false} BatchesConcat(dag: nat -> Subdag, k: nat, blocks: nat)
    ensures Concat(Batches(dag, k, blocks)) == RoundTxs(dag, 1, FirstRound(k, blocks) - 1)
  {
    hide RoundTxs, Concat;
    if blocks == 0 {
      NoBatches(dag, k);
    } else {
      var from := FirstRound(k, blocks - 1);
      BatchesConcat(dag, k, blocks - 1);
      ConcatSnoc(Batches(dag, k, blocks - 1), RoundTxs(dag, from, k));
      RoundTxsJoin(dag, 1, from - 1, k);
    }
  }

  lemma NoBatches(dag: nat -> Subdag, k: nat)
    ensures Concat(Batches(dag, k, 0)) == RoundTxs(dag, 1, FirstRound(k, 0) - 1)
  {
  }

  /** ... in particular for any two numbers of rounds per block that divide the same number of rounds. */
  lemma RoundsPerBlockInvariance(
    envsA: Envs, envsB: Envs, genesis: World, dag: nat -> Subdag, k: nat, m: nat, l: nat, n: nat, s: Address)
    requires k * m == l * n
    requires AllLawful(envsA) && AllMatching(envsA) && AllLawful(envsB) && AllMatching(envsB)
    requires HashesIdentify(RoundTxs(dag, 1, k * m))
    requires RoomyRun(envsA, genesis, Batches(dag, k, m)) && RoomyRun(envsB, genesis, Batches(dag, l, n))
    ensures Run(envsA, genesis, Batches(dag, k, m)).Some? && Run(envsB, genesis, Batches(dag, l, n)).Some?
    ensures NonceOf(Run(envsA, genesis, Batches(dag, k, m)).value.0.world, s) ==
            NonceOf(Run(envsB, genesis, Batches(dag, l, n)).value.0.world, s)
    ensures IsGap(Nonces(Of(RoundTxs(dag, 1, k * m), s)), NonceOf(genesis, s),
                  NonceOf(Run(envsA, genesis, Batches(dag, k, m)).value.0.world, s))
  {
    hide RoundTxs, Concat, Batches, Run, RoomyRun;
    BatchesConcat(dag, k, m);
    BatchesConcat(dag, l, n);
    FirstRoundIs(k, m);
    FirstRoundIs(l, n);
    BatchingInvariance(envsA, envsB, genesis, Batches(dag, k, m), Batches(dag, l, n), s);
  }
}
