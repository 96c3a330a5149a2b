/** The consensus pool: committed sub-DAGs waiting for a block, and transactions no block has mined yet. */
module Pool {
  import opened Types
  import opened Ordering
  import opened Sequences

  /** The fields of the pool that a block depends on. */
  datatype PoolState = PoolState(next: nat, queue: map<nat, Subdag>, pending: seq<Tx>)

  const EMPTY_POOL := PoolState(1, map[], [])

  /** The next `k` rounds are all committed. */
  predicate BatchReady(st: PoolState, k: nat) {
    forall i :: st.next <= i < st.next + k ==> i in st.queue
  }

  function Batch(st: PoolState, k: nat): (b: seq<Subdag>)
    requires BatchReady(st, k)
    ensures |b| == k && forall i :: 0 <= i < k ==> b[i] == st.queue[st.next + i]
  {
    seq(k, i requires 0 <= i < k => st.queue[st.next + i])
  }

  function Proposal(st: PoolState, k: nat): seq<Tx>
    requires BatchReady(st, k)
  {
    Reorder(st.pending + Flatten(Batch(st, k)))
  }

  /** The proposal as it is fetched: empty while the queue is too short; none when a round of the batch is missing all the same. */
  function Fetched(st: PoolState, k: nat): Option<seq<Tx>> {
    if |st.queue| < k then Some([])
    else if BatchReady(st, k) then Some(Proposal(st, k))
    else None
  }

  /** `txs` without the transactions whose hash is in `hashes`. */
  function Without(txs: seq<Tx>, hashes: set<TxHash>): seq<Tx> {
    if txs == [] then [] else
      var last := txs[|txs| - 1];
      Without(txs[..|txs| - 1], hashes) + if last.hash in hashes then [] else [last]
  }

  /** `ix` are the positions of `txs` whose hash is not in `hashes`. */
  ghost predicate Positions(ix: seq<nat>, txs: seq<Tx>, hashes: set<TxHash>) {
    forall i: nat :: i in ix <==> i < |txs| && txs[i].hash !in hashes
  }

  /** `kept` is `txs` in order, with exactly the positions whose hash is not in `hashes`. */
  ghost predicate Keeps(kept: seq<Tx>, txs: seq<Tx>, hashes: set<TxHash>) {
    exists ix: seq<nat> :: Picks(ix, kept, txs) && Positions(ix, txs, hashes)
  }

  lemma PositionsSnoc(ix: seq<nat>, txs: seq<Tx>, t: Tx, hashes: set<TxHash>)
    requires Positions(ix, txs, hashes)
    ensures Positions(if t.hash in hashes then ix else ix + [|txs|], txs + [t], hashes)
  {
    assert forall i: nat :: i in ix + [|txs|] <==> i in ix || i == |txs|;
  }

  lemma PicksSnoc(ix: seq<nat>, kept: seq<Tx>, txs: seq<Tx>, t: Tx)
    requires Picks(ix, kept, txs)
    ensures Picks(ix, kept, txs + [t]) && Picks(ix + [|txs|], kept + [t], txs + [t])
  {
  }

  lemma {:induction false} WithoutKeeps(txs: seq<Tx>, hashes: set<TxHash>)
    ensures Keeps(Without(txs, hashes), txs, hashes)
  {
    hide Picks, Positions;
    if txs == [] {
      NothingKept(hashes);
    } else {
      var init, last := txs[..|txs| - 1], txs[|txs| - 1];
      WithoutKeeps(init, hashes);
      var ix: seq<nat> :| Picks(ix, Without(init, hashes), init) && Positions(ix, init, hashes);
      PicksSnoc(ix, Without(init, hashes), init, last);
      PositionsSnoc(ix, init, last, hashes);
      assert init + [last] == txs;
      var now := if last.hash in hashes then ix else ix + [|init|];
      assert Without(init, hashes) + [] == Without(init, hashes);
      assert Picks(now, Without(txs, hashes), txs) && Positions(now, txs, hashes);
    }
  }

  lemma NothingKept(hashes: set<TxHash>)
    ensures Keeps([], [], hashes)
  {
    assert Picks<Tx>([], [], []) && Positions([], [], hashes);
  }

  lemma KeepsSubsequence(kept: seq<Tx>, txs: seq<Tx>, hashes: set<TxHash>)
    requires Keeps(kept, txs, hashes)
    ensures IsSubsequence(kept, txs)
  {
  }

  /** The `k` rounds from `from` on. */
  function Rounds(from: nat, k: nat): (r: set<nat>)
    ensures forall i :: i in r <==> from <= i < from + k
  {
    if k == 0 then {} else Rounds(from, k - 1) + {from + k - 1}
  }

  function Inserted(queue: map<nat, Subdag>, subdags: seq<Subdag>): map<nat, Subdag> {
    if subdags == [] then queue else
      var last := subdags[|subdags| - 1];
      Inserted(queue, subdags[..|subdags| - 1])[last.round := last]
  }

  function Added(st: PoolState, subdags: seq<Subdag>): PoolState {
    st.(queue := Inserted(st.queue, subdags))
  }

  /** The pool once the block made of the next `k` rounds has mined `hashes`. */
  function Consumed(st: PoolState, k: nat, hashes: set<TxHash>): PoolState
    requires BatchReady(st, k)
  {
    PoolState(st.next + k, st.queue - Rounds(st.next, k), Without(Proposal(st, k), hashes))
  }

  /** The sub-DAG of the lowest queued round with a non-zero timestamp. */
  function FirstStamped(queue: map<nat, Subdag>): Option<Subdag>
    decreases |queue|
  {
    if queue == map[] then None else
      var k := Least(queue.Keys);
      assert (queue - {k}).Keys == queue.Keys - {k};
      if queue[k].timestampMs > 0 then Some(queue[k]) else FirstStamped(queue - {k})
  }

  class ConsensusPool {
    const perBlock: nat
    var next: nat
    var queue: map<nat, Subdag>
    var pending: seq<Tx>
    var first: Option<Subdag>

    function View(): PoolState
      reads this
    {
      PoolState(next, queue, pending)
    }

    constructor (k: nat)
      ensures perBlock == k && View() == EMPTY_POOL && first == None
    {
      perBlock, next, queue, pending, first := k, 1, map[], [], None;
    }

    method AddCommittedSubdags(subdags: seq<Subdag>)
      modifies this
      ensures View() == Added(old(View()), subdags)
      ensures first == if old(first) == None && subdags != [] then Some(subdags[0]) else old(first)
    {
      if subdags == [] {
        return;
      }
      if first == None {
        first := Some(subdags[0]);
      }
      for i := 0 to |subdags|
        invariant queue == Inserted(old(queue), subdags[..i])
        invariant next == old(next) && pending == old(pending)
        invariant first == if old(first) == None then Some(subdags[0]) else old(first)
      {
        assert subdags[..i + 1][..i] == subdags[..i];
        queue := queue[subdags[i].round := subdags[i]];
      }
      assert subdags[..|subdags|] == subdags;
    }

    method GetFirstCommittedSubdag() returns (r: Option<Subdag>)
      ensures r == FirstStamped(queue)
    {
      var rest := queue;
      while rest != map[]
        invariant FirstStamped(rest) == FirstStamped(queue)
        decreases |rest|
      {
        var k := Least(rest.Keys);
        if rest[k].timestampMs > 0 {
          return Some(rest[k]);
        }
        assert (rest - {k}).Keys == rest.Keys - {k};
        rest := rest - {k};
      }
      return None;
    }

    /** The first and last sub-DAG of the next batch, if the whole batch is there. */
    method NextCommittedSubdagBatch() returns (r: Option<(Subdag, Subdag)>)
      ensures r.Some? <==> perBlock > 0 && BatchReady(View(), perBlock)
      ensures r.Some? ==> r.value == (queue[next], queue[next + perBlock - 1])
    {
      var first, last := None, None;
      for i := next to next + perBlock
        invariant forall j :: next <= j < i ==> j in queue
        invariant if i == next then first == None else first == Some(queue[next])
        invariant if perBlock == 0 || i < next + perBlock then last == None else last == Some(queue[next + perBlock - 1])
      {
        if i !in queue {
          return None;
        }
        if i == next {
          first := Some(queue[i]);
        }
        if i == next + perBlock - 1 {
          last := Some(queue[i]);
        }
      }
      if first.Some? && last.Some? {
        return Some((first.value, last.value));
      }
      return None;
    }

    /** `None` when its assertion fires: the queue is long enough, but a round of the batch is missing. */
    method GetProposalTransactions() returns (sorted: Option<seq<Tx>>)
      ensures sorted == Fetched(View(), perBlock)
      ensures sorted == None <==> |queue| >= perBlock && exists i :: next <= i < next + perBlock && i !in queue
      ensures |queue| < perBlock ==> sorted == Some([])
    {
      if |queue| < perBlock {
        return Some([]);
      }
      var batch := [];
      for i := 0 to perBlock
        invariant forall j :: next <= j < next + i ==> j in queue
        invariant |batch| == i && forall j :: 0 <= j < i ==> batch[j] == queue[next + j]
      {
        if next + i !in queue {
          return None;
        }
        batch := batch + [queue[next + i]];
      }
      assert batch == Batch(View(), perBlock);
      var proposal := CreateProposalTransactions(pending, batch);
      return Some(proposal);
    }

    method UpdateMinedBlock(hashes: set<TxHash>)
      requires BatchReady(View(), perBlock)
      modifies this
      ensures View() == Consumed(old(View()), perBlock, hashes) && first == old(first)
      ensures next == old(next) + perBlock
      ensures forall i :: i in queue <==> i in old(queue) && !(old(next) <= i < old(next) + perBlock)
      ensures forall i :: i in queue ==> queue[i] == old(queue)[i]
      ensures Keeps(pending, Proposal(old(View()), perBlock), hashes)
      ensures IsSubsequence(pending, Proposal(old(View()), perBlock))
    {
      hide Reorder, Without;
      var batch := TakeBatch();
      var sorted := CreateProposalTransactions(pending, batch);
      pending := Retain(sorted, hashes);
      hide Keeps, IsSubsequence;
      next := next + perBlock;
    }

    /** Removes the next batch from the queue. */
    method TakeBatch() returns (batch: seq<Subdag>)
      requires BatchReady(View(), perBlock)
      modifies this`queue
      ensures batch == Batch(old(View()), perBlock)
      ensures queue == old(queue) - Rounds(next, perBlock)
    {
      batch := [];
      for i := 0 to perBlock
        invariant batch == Batch(old(View()), perBlock)[..i]
        invariant queue == old(queue) - Rounds(next, i)
      {
        assert next + i in queue;
        batch := batch + [queue[next + i]];
        queue := queue - {next + i};
      }
    }
  }

  method Retain(txs: seq<Tx>, hashes: set<TxHash>) returns (kept: seq<Tx>)
    ensures kept == Without(txs, hashes)
    ensures Keeps(kept, txs, hashes) && IsSubsequence(kept, txs)
  {
    kept := [];
    for i := 0 to |txs|
      invariant kept == Without(txs[..i], hashes)
    {
      assert txs[..i + 1][..i] == txs[..i];
      if txs[i].hash !in hashes {
        kept := kept + [txs[i]];
      }
    }
    assert txs[..|txs|] == txs;
    WithoutKeeps(txs, hashes);
    KeepsSubsequence(kept, txs, hashes);
  }
}
