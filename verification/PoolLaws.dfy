/** What the pool promises about a proposal and over a run of blocks. */
module PoolLaws {
  import opened Types
  import opened Ordering
  import opened OrderingLaws
  import opened Pool
  import opened Sequences

  // ----- one proposal -----

  /** A complete batch always passes the size guard, so the guard never hides a ready block. */
  lemma ReadyPassesGuard(st: PoolState, k: nat)
    requires BatchReady(st, k)
    ensures |st.queue| >= k
  {
    RoundsSize(st.next, k);
    assert Rounds(st.next, k) <= st.queue.Keys;
    SubsetSize(Rounds(st.next, k), st.queue.Keys);
  }

  lemma {:induction false} RoundsSize(from: nat, k: nat)
    ensures |Rounds(from, k)| == k
  {
    if k == 0 {
    } else {
      RoundsSize(from, k - 1);
    }
  }

  /**
   The converse, exactly: the size of the queue tells for every batch size whether the batch
   is complete if and only if the queued rounds are the next ones without a gap.
   */
  lemma GuardExactly(st: PoolState)
    ensures (forall k: nat :: |st.queue| >= k <==> BatchReady(st, k)) <==> st.queue.Keys == Rounds(st.next, |st.queue|)
  {
    var n := |st.queue|;
    RoundsSize(st.next, n);
    if st.queue.Keys == Rounds(st.next, n) {
      forall k: nat
        ensures n >= k <==> BatchReady(st, k)
      {
        if BatchReady(st, k) {
          ReadyPassesGuard(st, k);
        }
      }
    } else {
      assert !BatchReady(st, n) by {
        if BatchReady(st, n) {
          assert Rounds(st.next, n) <= st.queue.Keys;
          SubsetOfSameSize(Rounds(st.next, n), st.queue.Keys);
        }
      }
    }
  }

  lemma SubsetOfSameSize(a: set<nat>, b: set<nat>)
    requires a <= b && |a| == |b|
    ensures a == b
  {
    assert b == a + (b - a);
  }

  /**
   For one batch size, and whatever is queued: the guard lets an incomplete batch through,
   and the assertion behind it fires, exactly when rounds outside the batch make up for the
   missing ones.
   */
  lemma GuardMisjudges(st: PoolState, k: nat)
    ensures |st.queue| >= k && !BatchReady(st, k) <==>
            var batch := Rounds(st.next, k); 0 < |batch - st.queue.Keys| <= |st.queue.Keys - batch|
  {
    var batch, queued := Rounds(st.next, k), st.queue.Keys;
    RoundsSize(st.next, k);
    DifferenceSizes(batch, queued);
    assert BatchReady(st, k) <==> batch - queued == {} by {
      if BatchReady(st, k) {
        forall i | i in batch
          ensures i in queued
        {
        }
      } else {
        var i :| st.next <= i < st.next + k && i !in st.queue;
        assert i in batch - queued;
      }
    }
  }

  lemma DifferenceSizes(a: set<nat>, b: set<nat>)
    ensures |a| - |a - b| == |b| - |b - a|
  {
    assert a == a * b + (a - b) && b == a * b + (b - a);
  }

  /**
   Committing a consumed round again is enough: the guard then lets a batch of any size
   through as soon as all its rounds but one are queued.
   */
  lemma OldRoundFoolsGuard(st: PoolState, k: nat, d: Subdag)
    requires d.round < st.next && d.round !in st.queue && k > 0
    requires st.queue.Keys == Rounds(st.next, k - 1)
    ensures var after := Added(st, [d]); |after.queue| >= k && !BatchReady(after, k)
  {
    hide Rounds;
    var after := Added(st, [d]);
    assert after.queue == st.queue[d.round := d] by { InsertedOne(st.queue, d); }
    assert after.queue.Keys == st.queue.Keys + {d.round};
    RoundsSize(st.next, k - 1);
    assert st.next + k - 1 !in after.queue;
  }

  lemma InsertedOne(queue: map<nat, Subdag>, d: Subdag)
    ensures Inserted(queue, [d]) == queue[d.round := d]
  {
    assert [d][..0] == [] && Inserted(queue, []) == queue;
  }

  lemma {:induction false} InsertedRounds(queue: map<nat, Subdag>, subdags: seq<Subdag>)
    ensures forall i :: i in Inserted(queue, subdags) <==> i in queue || exists d :: d in subdags && d.round == i
  {
    if subdags == [] {
    } else {
      var init, last := subdags[..|subdags| - 1], subdags[|subdags| - 1];
      InsertedRounds(queue, init);
      assert subdags == init + [last];
    }
  }

  /** A queued round holds the last sub-DAG added for it. */
  lemma {:induction false} InsertedLast(queue: map<nat, Subdag>, subdags: seq<Subdag>, j: nat)
    requires j < |subdags| && forall l :: j < l < |subdags| ==> subdags[l].round != subdags[j].round
    ensures subdags[j].round in Inserted(queue, subdags)
    ensures Inserted(queue, subdags)[subdags[j].round] == subdags[j]
  {
    var n := |subdags| - 1;
    if j == n {
    } else {
      assert subdags[n].round != subdags[j].round;
      InsertedLast(queue, subdags[..n], j);
    }
  }

  lemma {:induction false} InsertedFrom(queue: map<nat, Subdag>, subdags: seq<Subdag>, i: nat)
    requires i in Inserted(queue, subdags)
    ensures (i in queue && Inserted(queue, subdags)[i] == queue[i]) ||
            (Inserted(queue, subdags)[i] in subdags && Inserted(queue, subdags)[i].round == i)
  {
    if subdags == [] {
    } else {
      var init, last := subdags[..|subdags| - 1], subdags[|subdags| - 1];
      assert subdags == init + [last];
      if i != last.round {
        InsertedFrom(queue, init, i);
      }
    }
  }

  /** It is found exactly when some queued sub-DAG has a timestamp, and it is the earliest of those. */
  lemma {:induction false} FirstStampedMeaning(queue: map<nat, Subdag>)
    ensures match FirstStamped(queue)
            case None => forall i :: i in queue ==> queue[i].timestampMs == 0
            case Some(d) =>
              exists i :: i in queue && queue[i] == d && d.timestampMs > 0 &&
                          forall j :: j in queue && j < i ==> queue[j].timestampMs == 0
    decreases |queue|
  {
    if queue == map[] {
    } else {
      var k := Least(queue.Keys);
      var rest := queue - {k};
      assert rest.Keys == queue.Keys - {k};
      if queue[k].timestampMs == 0 {
        FirstStampedMeaning(rest);
        assert forall i :: i in queue ==> i == k || i in rest;
      } else {
        assert k in queue && queue[k] == FirstStamped(queue).value;
      }
    }
  }

  /**
   Whatever is committed between a proposal and its execution, the list recomputed at
   execution is the list that was proposed, as long as a re-submitted round of the batch
   carries the same sub-DAG.
   */
  lemma ProposalStable(st: PoolState, k: nat, subdags: seq<Subdag>)
    requires BatchReady(st, k)
    requires forall d :: d in subdags && st.next <= d.round < st.next + k ==> d == st.queue[d.round]
    ensures BatchReady(Added(st, subdags), k)
    ensures Proposal(Added(st, subdags), k) == Proposal(st, k)
  {
    InsertedRounds(st.queue, subdags);
    var after := Added(st, subdags);
    forall i | st.next <= i < st.next + k
      ensures i in after.queue && after.queue[i] == st.queue[i]
    {
      InsertedFrom(st.queue, subdags, i);
    }
    assert Batch(after, k) == Batch(st, k);
  }

  /**
   A mined block, round by round: exactly the batch leaves the queue, what stays keeps its
   sub-DAG, and what is pending is the proposal in its order without the mined transactions.
   */
  lemma ConsumedExactly(st: PoolState, k: nat, hashes: set<TxHash>)
    requires BatchReady(st, k)
    ensures var now := Consumed(st, k, hashes);
            && now.next == st.next + k
            && (forall i :: i in now.queue <==> i in st.queue && !(st.next <= i < st.next + k))
            && (forall i :: i in now.queue ==> now.queue[i] == st.queue[i])
            && Keeps(now.pending, Proposal(st, k), hashes)
            && IsSubsequence(now.pending, Proposal(st, k))
  {
    hide Keeps, IsSubsequence, Proposal;
    WithoutKeeps(Proposal(st, k), hashes);
    KeepsSubsequence(Consumed(st, k, hashes).pending, Proposal(st, k), hashes);
  }

  // ----- the committed DAG -----

  /** The transactions of the `n` rounds from `from` on, when `dag` gives the sub-DAG of each round. */
  function RoundTxs(dag: nat -> Subdag, from: nat, n: nat): seq<Tx> {
    if n == 0 then [] else RoundTxs(dag, from, n - 1) + dag(from + n - 1).transactions
  }

  lemma {:induction false} RoundTxsJoin(dag: nat -> Subdag, from: nat, m: nat, n: nat)
    ensures RoundTxs(dag, from, m + n) == RoundTxs(dag, from, m) + RoundTxs(dag, from + m, n)
  {
    if n == 0 {
    } else {
      RoundTxsJoin(dag, from, m, n - 1);
    }
  }

  /** Every queued sub-DAG is the one the DAG has for its round. */
  ghost predicate FromDag(dag: nat -> Subdag, queue: map<nat, Subdag>) {
    forall i :: i in queue ==> queue[i] == dag(i)
  }

  lemma AddedFromDag(dag: nat -> Subdag, queue: map<nat, Subdag>, subdags: seq<Subdag>)
    requires FromDag(dag, queue) && forall d :: d in subdags ==> d == dag(d.round)
    ensures FromDag(dag, Inserted(queue, subdags))
  {
    forall i | i in Inserted(queue, subdags)
      ensures Inserted(queue, subdags)[i] == dag(i)
    {
      InsertedFrom(queue, subdags, i);
    }
  }

  /** A batch is made of exactly the next `k` rounds, in order. */
  lemma {:induction false} BatchIsRounds(dag: nat -> Subdag, st: PoolState, k: nat)
    requires BatchReady(st, k) && FromDag(dag, st.queue)
    ensures Flatten(Batch(st, k)) == RoundTxs(dag, st.next, k)
  {
    if k == 0 {
    } else {
      BatchIsRounds(dag, st, k - 1);
      assert Batch(st, k)[..k - 1] == Batch(st, k - 1);
    }
  }

  /** The round that follows `blocks` batches of `k` rounds. */
  function FirstRound(k: nat, blocks: nat): (round: nat)
    ensures round >= 1
  {
    if blocks == 0 then 1 else FirstRound(k, blocks - 1) + k
  }

  lemma {:induction false} FirstRoundIs(k: nat, blocks: nat)
    ensures FirstRound(k, blocks) == 1 + k * blocks
  {
    if blocks == 0 {
    } else {
      FirstRoundIs(k, blocks - 1);
    }
  }

  // ----- runs of blocks -----

  /** A block seen from the pool: the transactions it consumed and the hashes it mined. */
  datatype Step = Step(batch: seq<Tx>, mined: set<TxHash>)

  function PendingAfter(run: seq<Step>): seq<Tx> {
    if run == [] then [] else
      var last := run[|run| - 1];
      Without(Reorder(PendingAfter(run[..|run| - 1]) + last.batch), last.mined)
  }

  /** Position `i` of the batch of block `b` exists. */
  ghost predicate At(run: seq<Step>, b: nat, i: nat) {
    b < |run| && i < |run[b].batch|
  }

  /** Some later consumed transaction has the key of the one at `(b, i)`. */
  ghost predicate Replaced(run: seq<Step>, b: nat, i: nat)
    requires At(run, b, i)
  {
    exists c: nat, j: nat :: At(run, c, j) && (b < c || (b == c && i < j)) && KeyOf(run[c].batch[j]) == KeyOf(run[b].batch[i])
  }

  /** The block that consumed `(b, i)`, or a later one, mined it. */
  ghost predicate MinedSince(run: seq<Step>, b: nat, i: nat)
    requires At(run, b, i)
  {
    exists c: nat :: b <= c < |run| && run[b].batch[i].hash in run[c].mined
  }

  /** `t` was consumed at `(b, i)` and is neither mined nor replaced since. */
  ghost predicate Outstanding(run: seq<Step>, b: nat, i: nat, t: Tx) {
    At(run, b, i) && run[b].batch[i] == t && !Replaced(run, b, i) && !MinedSince(run, b, i)
  }

  ghost predicate StillOutstanding(run: seq<Step>, t: Tx) {
    exists b: nat, i: nat :: Outstanding(run, b, i, t)
  }

  lemma {:induction false} WithoutMeaning(txs: seq<Tx>, hashes: set<TxHash>)
    ensures forall t :: t in Without(txs, hashes) <==> t in txs && t.hash !in hashes
  {
    if txs == [] {
    } else {
      var init := txs[..|txs| - 1];
      WithoutMeaning(init, hashes);
      assert txs == init + [txs[|txs| - 1]];
    }
  }

  lemma {:induction false} WithoutAscends(txs: seq<Tx>, hashes: set<TxHash>)
    requires AscendingPerSender(txs)
    ensures AscendingPerSender(Without(txs, hashes))
  {
    if txs == [] {
    } else {
      var init := txs[..|txs| - 1];
      WithoutAscends(init, hashes);
      WithoutMeaning(init, hashes);
      var kept := Without(init, hashes);
      assert forall i :: 0 <= i < |kept| ==> kept[i] in kept;
    }
  }

  /** The pending list never holds two transactions with one key, and each sender's nonces ascend. */
  lemma PendingAscends(run: seq<Step>)
    ensures AscendingPerSender(PendingAfter(run)) && NoDuplicateKey(PendingAfter(run))
  {
    if run != [] {
      var last := run[|run| - 1];
      var all := PendingAfter(run[..|run| - 1]) + last.batch;
      ReorderContents(all);
      WithoutAscends(Reorder(all), last.mined);
    }
  }

  lemma LastWriterOfBatch(pending: seq<Tx>, batch: seq<Tx>, i: nat)
    requires i < |batch|
    ensures LastWriter(pending + batch, |pending| + i) <==> LastWriter(batch, i)
  {
    var all, n := pending + batch, |pending|;
    if LastWriter(all, n + i) {
      forall j | i < j < |batch|
        ensures KeyOf(batch[j]) != KeyOf(batch[i])
      {
        assert all[n + j] == batch[j];
      }
    }
  }

  lemma LastWriterOfPending(pending: seq<Tx>, batch: seq<Tx>, i: nat)
    requires i < |pending| && NoDuplicateKey(pending)
    ensures LastWriter(pending + batch, i) <==> KeyOf(pending[i]) !in Keys(batch)
  {
    var all, n := pending + batch, |pending|;
    if KeyOf(pending[i]) in Keys(batch) {
      var x :| x in batch && KeyOf(x) == KeyOf(pending[i]);
      var j :| 0 <= j < |batch| && batch[j] == x;
      assert KeyOf(all[n + j]) == KeyOf(all[i]);
    } else {
      forall j | i < j < |all|
        ensures KeyOf(all[j]) != KeyOf(all[i])
      {
        assert j >= n ==> all[j] == batch[j - n];
      }
    }
  }

  lemma LastWriterSplit(pending: seq<Tx>, batch: seq<Tx>, t: Tx)
    requires NoDuplicateKey(pending)
    ensures IsLastWriter(pending + batch, t) <==>
              (t in pending && KeyOf(t) !in Keys(batch)) || IsLastWriter(batch, t)
  {
    var all, n := pending + batch, |pending|;
    if IsLastWriter(all, t) {
      var i :| 0 <= i < |all| && all[i] == t && LastWriter(all, i);
      if i < n {
        LastWriterOfPending(pending, batch, i);
      } else {
        LastWriterOfBatch(pending, batch, i - n);
        assert batch[i - n] == t;
      }
    }
    if IsLastWriter(batch, t) {
      var i :| 0 <= i < |batch| && batch[i] == t && LastWriter(batch, i);
      LastWriterOfBatch(pending, batch, i);
      assert all[n + i] == t;
    }
    if t in pending && KeyOf(t) !in Keys(batch) {
      var i :| 0 <= i < n && pending[i] == t;
      LastWriterOfPending(pending, batch, i);
      assert all[i] == t;
    }
  }

  /** Of two lists, the last writers are those of the second and those of the first that it does not replace. */
  lemma LastWriterAppend(a: seq<Tx>, b: seq<Tx>, t: Tx)
    ensures IsLastWriter(a + b, t) <==> (IsLastWriter(a, t) && KeyOf(t) !in Keys(b)) || IsLastWriter(b, t)
  {
    var once := Reorder(a);
    ReorderContents(a);
    LastWriterSplit(once, b, t);
    ReorderComposes(a, b, t.sender);
    ReorderContents(once + b);
    ReorderContents(a + b);
    OfShape(Reorder(once + b), t.sender);
    OfShape(Reorder(a + b), t.sender);
  }

  /** One block: what is pending afterwards was left over unreplaced, or is a last writer of the batch. */
  lemma PendingStep(pending: seq<Tx>, batch: seq<Tx>, mined: set<TxHash>, t: Tx)
    requires NoDuplicateKey(pending)
    ensures t in Without(Reorder(pending + batch), mined) <==>
              t.hash !in mined && ((t in pending && KeyOf(t) !in Keys(batch)) || IsLastWriter(batch, t))
  {
    ReorderContents(pending + batch);
    WithoutMeaning(Reorder(pending + batch), mined);
    LastWriterSplit(pending, batch, t);
  }

  /**
   No transaction is lost and none is invented: after any run of blocks, the pending
   transactions are exactly the consumed ones that are neither mined since nor replaced
   by a later transaction with the same sender and nonce.
   */
  lemma {:induction false} PendingExactly(run: seq<Step>, t: Tx)
    ensures t in PendingAfter(run) <==> StillOutstanding(run, t)
  {
    if run == [] {
    } else {
      var n := |run| - 1;
      var init, last := run[..n], run[n];
      PendingExactly(init, t);
      PendingAscends(init);
      PendingStep(PendingAfter(init), last.batch, last.mined, t);
      OutstandingNow(run, t);
      OutstandingBefore(run, t);
    }
  }

  lemma OutstandingNow(run: seq<Step>, t: Tx)
    requires run != []
    ensures var n := |run| - 1; var batch := run[n].batch;
            (exists i: nat :: Outstanding(run, n, i, t)) <==> t.hash !in run[n].mined && IsLastWriter(batch, t)
  {
    var n := |run| - 1;
    var batch := run[n].batch;
    forall i: nat | i < |batch|
      ensures Replaced(run, n, i) <==> !LastWriter(batch, i)
    {
      if !LastWriter(batch, i) {
        var j :| i < j < |batch| && KeyOf(batch[j]) == KeyOf(batch[i]);
        assert At(run, n, j);
      }
    }
    if exists i: nat :: Outstanding(run, n, i, t) {
      var i: nat :| Outstanding(run, n, i, t);
      assert batch[i] == t && LastWriter(batch, i);
    }
    if t.hash !in run[n].mined && IsLastWriter(batch, t) {
      var i :| 0 <= i < |batch| && batch[i] == t && LastWriter(batch, i);
      assert Outstanding(run, n, i, t);
    }
  }

  lemma OutstandingBefore(run: seq<Step>, t: Tx)
    requires run != []
    ensures var n := |run| - 1;
            (exists b: nat, i: nat :: b < n && Outstanding(run, b, i, t)) <==>
            t.hash !in run[n].mined && KeyOf(t) !in Keys(run[n].batch) && exists b: nat, i: nat :: Outstanding(run[..n], b, i, t)
  {
    var n := |run| - 1;
    var init, last := run[..n], run[n];
    forall b: nat, i: nat | b < n
      ensures Outstanding(run, b, i, t) <==>
              t.hash !in last.mined && KeyOf(t) !in Keys(last.batch) && Outstanding(init, b, i, t)
    {
      if At(run, b, i) && run[b].batch[i] == t {
        ReplacedStep(run, b, i);
        MinedStep(run, b, i);
      }
    }
    if exists b: nat, i: nat :: b < n && Outstanding(run, b, i, t) {
      var b: nat, i: nat :| b < n && Outstanding(run, b, i, t);
      assert Outstanding(init, b, i, t);
    }
    if t.hash !in last.mined && KeyOf(t) !in Keys(last.batch) && exists b: nat, i: nat :: Outstanding(init, b, i, t) {
      var b: nat, i: nat :| Outstanding(init, b, i, t);
      assert Outstanding(run, b, i, t);
    }
  }

  lemma ReplacedStep(run: seq<Step>, b: nat, i: nat)
    requires run != [] && b < |run| - 1 && At(run, b, i)
    ensures var n := |run| - 1;
            Replaced(run, b, i) <==> Replaced(run[..n], b, i) || KeyOf(run[b].batch[i]) in Keys(run[n].batch)
  {
    var n := |run| - 1;
    var init, key := run[..n], KeyOf(run[b].batch[i]);
    if Replaced(run, b, i) {
      var c: nat, j: nat :| At(run, c, j) && (b < c || (b == c && i < j)) && KeyOf(run[c].batch[j]) == key;
      assert c < n ==> At(init, c, j);
    }
    if Replaced(init, b, i) {
      var c: nat, j: nat :| At(init, c, j) && (b < c || (b == c && i < j)) && KeyOf(init[c].batch[j]) == key;
      assert At(run, c, j);
    }
    if key in Keys(run[n].batch) {
      var x :| x in run[n].batch && KeyOf(x) == key;
      var j :| 0 <= j < |run[n].batch| && run[n].batch[j] == x;
      assert At(run, n, j);
    }
  }

  lemma MinedStep(run: seq<Step>, b: nat, i: nat)
    requires run != [] && b < |run| - 1 && At(run, b, i)
    ensures var n := |run| - 1;
            MinedSince(run, b, i) <==> MinedSince(run[..n], b, i) || run[b].batch[i].hash in run[n].mined
  {
    var n := |run| - 1;
    var init, hash := run[..n], run[b].batch[i].hash;
    if MinedSince(run, b, i) {
      var c: nat :| b <= c < |run| && hash in run[c].mined;
      assert c < n ==> hash in init[c].mined;
    }
    if MinedSince(init, b, i) {
      var c: nat :| b <= c < |init| && hash in init[c].mined;
      assert hash in run[c].mined;
    }
  }
}
