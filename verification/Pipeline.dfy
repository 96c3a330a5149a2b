/**
 The pipeline protocol of `MysticetiConsensus`: a loop that builds at most one ordered
 block at a time and pushes it for execution, and the execution results that move the
 canonical block number and the pool forward.
 */
module Pipeline {
  import opened Types
  import opened Pool
  import opened PoolLaws

  type BlockId = nat

  /** `blockId` hashes a block number and a timestamp. */
  datatype Config = Config(k: nat, genesis: BlockId, blockId: (nat, nat) -> BlockId)

  /** The parts of a block that are the same for all blocks. */
  datatype Fixed = Fixed(
    coinbase: Address,
    prevRandao: nat,
    withdrawals: seq<nat>,
    extraData: seq<nat>,
    randomness: nat,
    enableRandomness: bool)

  const DEFAULTS := Fixed(0, 0, [], [], 0, false)

  datatype OrderedBlock = OrderedBlock(
    epoch: nat,
    parentId: BlockId,
    id: BlockId,
    number: nat,
    timestamp: nat,
    transactions: seq<Tx>,
    senders: seq<Address>,
    proposer: Option<seq<nat>>,
    fixed: Fixed)

  /** What execution reports of a block: the hashes it mined and the epoch it starts, if any. */
  datatype ExecutionResult = ExecutionResult(mined: set<TxHash>, newEpoch: Option<nat>)

  /** What is kept of the last ordered block. */
  datatype Tip = Tip(number: nat, id: BlockId)

  /** `pushed` and `results` record all blocks pushed and all results received so far. */
  datatype State = State(
    pool: PoolState,
    last: Option<Tip>,
    canonical: nat,
    epoch: nat,
    inFlight: Option<OrderedBlock>,
    pushed: seq<OrderedBlock>,
    results: seq<ExecutionResult>)

  const INITIAL := State(EMPTY_POOL, None, 0, 1, None, [], [])

  datatype Event = Submit(subdags: seq<Subdag>) | Tick(pushSucceeds: bool) | Executed(result: ExecutionResult)

  datatype Stepped = Next(state: State) | Panicked | NotEnabled

  function Senders(txs: seq<Tx>): seq<Address> {
    seq(|txs|, i requires 0 <= i < |txs| => txs[i].sender)
  }

  function Nibble(c: char): Option<nat> {
    if '0' <= c <= '9' then Some((c - '0') as nat)
    else if 'a' <= c <= 'f' then Some((c - 'a') as nat + 10)
    else if 'A' <= c <= 'F' then Some((c - 'A') as nat + 10)
    else None
  }

  function HexDecode(s: string): Option<seq<nat>> {
    if s == "" then Some([])
    else if |s| == 1 then None
    else
      match (Nibble(s[0]), Nibble(s[1]), HexDecode(s[2..]))
      case (Some(high), Some(low), Some(rest)) => Some([16 * high + low] + rest)
      case _ => None
  }

  /** The 32 bytes a leader's address spells in hexadecimal. */
  function Proposer(leader: string): Option<seq<nat>> {
    if !("0x" <= leader) then None else
      match HexDecode(leader[2..])
      case Some(bytes) => if |bytes| == 32 then Some(bytes) else None
      case None => None
  }

  function Build(cfg: Config, st: State, transactions: seq<Tx>, last: Subdag): OrderedBlock {
    var number := (if st.last.Some? then st.last.value.number else st.canonical) + 1;
    var timestamp := last.timestampMs / 1000;
    OrderedBlock(
      st.epoch,
      if st.last.Some? then st.last.value.id else cfg.genesis,
      cfg.blockId(number, timestamp),
      number,
      timestamp,
      transactions,
      Senders(transactions),
      Proposer(last.leader),
      DEFAULTS)
  }

  function TryBuild(cfg: Config, st: State): Option<OrderedBlock> {
    if st.last.Some? then
      if st.last.value.number > st.canonical then None
      else if cfg.k > 0 && BatchReady(st.pool, cfg.k) then
        Some(Build(cfg, st, Proposal(st.pool, cfg.k), st.pool.queue[st.pool.next + cfg.k - 1]))
      else None
    else
      match FirstStamped(st.pool.queue)
      case None => None
      case Some(first) => Some(Build(cfg, st, [], first))
  }

  /** Each transaction has its own sender beside it. */
  ghost predicate SendersMatch(b: OrderedBlock) {
    |b.senders| == |b.transactions| && forall i :: 0 <= i < |b.senders| ==> b.senders[i] == b.transactions[i].sender
  }

  /**
   A block can be built: the first one as soon as some queued sub-DAG has a timestamp, a later
   one when the last one is canonical and all rounds of the next batch are queued.
   */
  ghost predicate Buildable(cfg: Config, st: State) {
    match st.last
    case None => exists i :: i in st.pool.queue && st.pool.queue[i].timestampMs > 0
    case Some(tip) =>
      tip.number <= st.canonical && cfg.k > 0 && forall i :: st.pool.next <= i < st.pool.next + cfg.k ==> i in st.pool.queue
  }

  function Apply(cfg: Config, st: State, e: Event): Stepped {
    match e
    case Submit(subdags) => Next(st.(pool := Added(st.pool, subdags)))
    case Tick(pushSucceeds) =>
      (match TryBuild(cfg, st)
       case Some(b) =>
         if pushSucceeds then
           Next(st.(last := Some(Tip(b.number, b.id)), inFlight := Some(b), pushed := st.pushed + [b]))
         else Next(st)
       case None => Next(st))
    case Executed(result) =>
      match st.inFlight
      case None => NotEnabled
      case Some(b) =>
        if b.number > 1 && !BatchReady(st.pool, cfg.k) then Panicked else
          Next(st.(
               canonical := b.number,
               pool := if b.number > 1 then Consumed(st.pool, cfg.k, result.mined) else st.pool,
               epoch := if result.newEpoch.Some? then result.newEpoch.value else st.epoch,
               inFlight := None,
               results := st.results + [result]))
  }

  // ----- the three writes of one result -----

  /** The canonical number is written; the block is not in flight any more. */
  function Written(st: State, b: OrderedBlock): State {
    st.(canonical := b.number, inFlight := None)
  }

  /** The pool advances, from block 2 on. */
  function Advanced(cfg: Config, st: State, b: OrderedBlock, result: ExecutionResult): Stepped {
    if b.number > 1 then
      if BatchReady(st.pool, cfg.k) then Next(st.(pool := Consumed(st.pool, cfg.k, result.mined))) else Panicked
    else Next(st)
  }

  /** The epoch is written, if the result starts one. */
  function Finished(st: State, result: ExecutionResult): State {
    st.(epoch := if result.newEpoch.Some? then result.newEpoch.value else st.epoch, results := st.results + [result])
  }

  /** With nothing in between, the three writes are the one step of `Apply`. */
  lemma ThreeWrites(cfg: Config, st: State, result: ExecutionResult)
    requires st.inFlight.Some?
    ensures Apply(cfg, st, Executed(result)) ==
            match Advanced(cfg, Written(st, st.inFlight.value), st.inFlight.value, result)
            case Next(now) => Next(Finished(now, result))
            case stopped => stopped
  {
  }

  function After(cfg: Config, events: seq<Event>): Stepped {
    if events == [] then Next(INITIAL) else
      match After(cfg, events[..|events| - 1])
      case Next(st) => Apply(cfg, st, events[|events| - 1])
      case stopped => stopped
  }

  class MysticetiConsensus {
    const cfg: Config
    const pool: ConsensusPool
    var lastOrdered: Option<Tip>
    var canonicalBlockNumber: nat
    var epoch: nat
    var inFlight: Option<OrderedBlock>
    ghost var pushed: seq<OrderedBlock>
    ghost var results: seq<ExecutionResult>

    ghost predicate Valid() {
      pool.perBlock == cfg.k
    }

    ghost function View(): State
      reads this, pool
    {
      State(pool.View(), lastOrdered, canonicalBlockNumber, epoch, inFlight, pushed, results)
    }

    constructor (cfg: Config, pool: ConsensusPool)
      requires pool.perBlock == cfg.k && pool.View() == EMPTY_POOL
      ensures this.cfg == cfg && this.pool == pool && Valid() && View() == INITIAL
    {
      this.cfg, this.pool := cfg, pool;
      lastOrdered, canonicalBlockNumber, epoch, inFlight, pushed, results := None, 0, 1, None, [], [];
    }

    method TryBuildNextOrderedBlock() returns (block: Option<OrderedBlock>)
      requires Valid()
      ensures block == TryBuild(cfg, View())
      ensures block.Some? <==> Buildable(cfg, View())
      ensures block.Some? && lastOrdered == None ==> block.value.transactions == []
      ensures block.Some? && lastOrdered.Some? ==> Some(block.value.transactions) == Fetched(pool.View(), cfg.k)
    {
      FirstStampedMeaning(pool.queue);
      if lastOrdered.Some? {
        if lastOrdered.value.number > canonicalBlockNumber {
          return None;
        }
        var batch := pool.NextCommittedSubdagBatch();
        if batch.Some? {
          ReadyPassesGuard(pool.View(), cfg.k);
          var proposal := pool.GetProposalTransactions();
          var b := BuildOrderedBlock(proposal.value, batch.value.1);
          return Some(b);
        }
        return None;
      }
      var first := pool.GetFirstCommittedSubdag();
      if first == None {
        return None;
      }
      var b := BuildOrderedBlock([], first.value);
      return Some(b);
    }

    method BuildOrderedBlock(transactions: seq<Tx>, last: Subdag) returns (block: OrderedBlock)
      ensures block == Build(cfg, View(), transactions, last)
      ensures block.number == (if lastOrdered.Some? then lastOrdered.value.number else canonicalBlockNumber) + 1
      ensures block.parentId == if lastOrdered.Some? then lastOrdered.value.id else cfg.genesis
      ensures block.timestamp == last.timestampMs / 1000 && block.id == cfg.blockId(block.number, block.timestamp)
      ensures block.epoch == epoch && block.transactions == transactions && SendersMatch(block)
      ensures block.proposer == Proposer(last.leader) && block.fixed == Fixed(0, 0, [], [], 0, false)
    {
      var parentNumber := if lastOrdered.Some? then lastOrdered.value.number else canonicalBlockNumber;
      var number := parentNumber + 1;
      var parentId := if lastOrdered.Some? then lastOrdered.value.id else cfg.genesis;
      var timestamp := last.timestampMs / 1000;
      var signed, senders := [], [];
      for i := 0 to |transactions|
        invariant signed == transactions[..i] && senders == Senders(transactions)[..i]
      {
        senders := senders + [transactions[i].sender];
        signed := signed + [transactions[i]];
      }
      assert signed == transactions && senders == Senders(transactions);
      block := OrderedBlock(
        epoch, parentId, cfg.blockId(number, timestamp), number, timestamp, signed, senders, Proposer(last.leader), DEFAULTS);
    }

    /** One turn of the main loop; `pushSucceeds` is the answer of the pipeline. */
    method OnTick(pushSucceeds: bool)
      requires Valid()
      modifies this
      ensures Next(View()) == Apply(cfg, old(View()), Tick(pushSucceeds))
      ensures !pushSucceeds || !Buildable(cfg, old(View())) ==> View() == old(View())
      ensures pushSucceeds && Buildable(cfg, old(View())) ==>
                inFlight.Some? && View() == old(View()).(
                  last := Some(Tip(inFlight.value.number, inFlight.value.id)),
                  inFlight := inFlight,
                  pushed := old(pushed) + [inFlight.value])
    {
      var block := TryBuildNextOrderedBlock();
      if block.Some? && pushSucceeds {
        lastOrdered := Some(Tip(block.value.number, block.value.id));
        inFlight := block;
        pushed := pushed + [block.value];
      }
    }

    /** The first write of the task that pulls execution results. */
    method WriteCanonical(b: OrderedBlock)
      requires Valid()
      modifies this`canonicalBlockNumber, this`inFlight
      ensures View() == Written(old(View()), b)
    {
      canonicalBlockNumber := b.number;
      inFlight := None;
    }

    /** The second one; the pool's assertion holds exactly when the precondition does. */
    method AdvancePool(b: OrderedBlock, result: ExecutionResult)
      requires Valid() && Advanced(cfg, View(), b, result).Next?
      modifies pool
      ensures Valid() && Next(View()) == Advanced(cfg, old(View()), b, result)
    {
      if b.number > 1 {
        pool.UpdateMinedBlock(result.mined);
      }
    }

    /** The third one. */
    method WriteEpoch(result: ExecutionResult)
      requires Valid()
      modifies this`epoch, this`results
      ensures View() == Finished(old(View()), result)
    {
      if result.newEpoch.Some? {
        epoch := result.newEpoch.value;
      }
      results := results + [result];
    }

    /** One turn of the task, when nothing comes in between. */
    method OnExecutionResult(result: ExecutionResult)
      requires Valid() && inFlight.Some?
      requires inFlight.value.number > 1 ==> BatchReady(pool.View(), cfg.k)
      modifies this, pool
      ensures Valid() && Next(View()) == Apply(cfg, old(View()), Executed(result))
    {
      ThreeWrites(cfg, View(), result);
      var b := inFlight.value;
      WriteCanonical(b);
      AdvancePool(b, result);
      WriteEpoch(result);
    }
  }
}
