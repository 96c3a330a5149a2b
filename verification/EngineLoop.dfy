/**
 The engine-handle loop of `MysticetiConsensus`: it asks the payload builder for payloads,
 keeps a bounded queue of those it receives, and executes them one at a time.
 */
module EngineLoop {
  import opened Types
  import opened Pool

  const MAX_PAYLOAD_BUFFER_SIZE: nat := 10

  /**
   A built payload: its block number, the first round of the batch it was built from, if
   from any, and the hashes of its transactions; `id` tells payloads apart.
   */
  datatype Payload = Payload(id: nat, number: nat, from: Option<nat>, txHashes: set<TxHash>)

  /**
   `requests` holds the parent numbers of the payloads asked for and not built yet, `channel`
   what is built and not received yet. `built`, `processed` and `dropped` record what was
   built, matched and discarded so far.
   */
  datatype State = State(
    pool: PoolState,
    canonical: nat,
    processing: Option<Payload>,
    lastBuilt: Option<Payload>,
    buffer: seq<Payload>,
    requests: seq<nat>,
    channel: seq<Payload>,
    built: seq<Payload>,
    processed: seq<Payload>,
    dropped: nat)

  const INITIAL := State(EMPTY_POOL, 0, None, None, [], [], [], [], [], 0)

  /** `Build` answers a request: the builder works beside the loop, on any request that is open. */
  datatype Event =
    | Submit(subdags: seq<Subdag>)
    | Tick
    | Build(request: nat, id: nat, txHashes: set<TxHash>)
    | Receive
    | Canonical(tip: nat)

  /** The loop goes on, unwraps a missing payload, or fails the pool's assertion on a missing batch. */
  datatype Stepped = Running(state: State) | NoPayload | NoBatch

  function NumberOf(p: Option<Payload>): nat {
    if p.Some? then p.value.number else 0
  }

  /** Whether a tick asks for a payload. */
  predicate Asks(k: nat, st: State) {
    (NumberOf(st.lastBuilt) == st.canonical || st.lastBuilt == None) && k > 0 && BatchReady(st.pool, k)
  }

  function Asked(k: nat, st: State): State {
    if Asks(k, st) then st.(requests := st.requests + [NumberOf(st.lastBuilt)]) else st
  }

  /**
   `try_build`: a child of the requested parent, from the pool's proposal or from nothing
   while the queue is too short. When the pool's assertion fires, the request ends without a payload.
   */
  function Answered(k: nat, st: State, request: nat, id: nat, txHashes: set<TxHash>): State {
    if request >= |st.requests| then st else
      var rest := st.(requests := st.requests[..request] + st.requests[request + 1..]);
      if |st.pool.queue| >= k && !BatchReady(st.pool, k) then rest
      else
        var from := if |st.pool.queue| >= k then Some(st.pool.next) else None;
        var p := Payload(id, st.requests[request] + 1, from, txHashes);
        rest.(channel := st.channel + [p], built := st.built + [p])
  }

  function Received(st: State): State {
    if st.channel == [] then st else
      var p := st.channel[0];
      var full := |st.buffer| >= MAX_PAYLOAD_BUFFER_SIZE;
      var buffer := (if full then st.buffer[1..] else st.buffer) + [p];
      var now := st.(lastBuilt := Some(p), channel := st.channel[1..], dropped := st.dropped + if full then 1 else 0);
      if st.processing == None then now.(processing := Some(buffer[0]), buffer := buffer[1..])
      else now.(buffer := buffer)
  }

  function Advance(k: nat, st: State, tip: nat): Stepped {
    var now := st.(canonical := tip);
    if NumberOf(st.processing) != tip then Running(now)
    else
      match st.processing
      case None => NoPayload
      case Some(p) =>
        if !BatchReady(st.pool, k) then NoBatch
        else
          Running(now.(
                  pool := Consumed(st.pool, k, p.txHashes),
                  processed := st.processed + [p],
                  processing := if st.buffer == [] then None else Some(st.buffer[0]),
                  buffer := if st.buffer == [] then [] else st.buffer[1..]))
  }

  function Apply(k: nat, st: State, e: Event): Stepped {
    match e
    case Submit(subdags) => Running(st.(pool := Added(st.pool, subdags)))
    case Tick => Running(Asked(k, st))
    case Build(request, id, txHashes) => Running(Answered(k, st, request, id, txHashes))
    case Receive => Running(Received(st))
    case Canonical(tip) => Advance(k, st, tip)
  }

  function After(k: nat, events: seq<Event>): Stepped {
    if events == [] then Running(INITIAL) else
      match After(k, events[..|events| - 1])
      case Running(st) => Apply(k, st, events[|events| - 1])
      case panicked => panicked
  }

  class MysticetiEngine {
    const k: nat
    const pool: ConsensusPool
    var canonicalBlockNumber: nat
    var lastProcessing: Option<Payload>
    var lastBuilt: Option<Payload>
    var payloadBuffer: seq<Payload>
    ghost var requests: seq<nat>
    ghost var channel: seq<Payload>
    ghost var built: seq<Payload>
    ghost var processed: seq<Payload>
    ghost var dropped: nat

    ghost predicate Valid() {
      pool.perBlock == k
    }

    ghost function View(): State
      reads this, pool
    {
      State(pool.View(), canonicalBlockNumber, lastProcessing, lastBuilt, payloadBuffer,
            requests, channel, built, processed, dropped)
    }

    constructor (pool: ConsensusPool)
      requires pool.View() == EMPTY_POOL
      ensures this.pool == pool && k == pool.perBlock && Valid() && View() == INITIAL
    {
      this.k, this.pool := pool.perBlock, pool;
      canonicalBlockNumber, lastProcessing, lastBuilt, payloadBuffer := 0, None, None, [];
      requests, channel, built, processed, dropped := [], [], [], [], 0;
    }

    /** Receives the front of the channel; returns the payload to execute, if any. */
    method OnBuiltPayload(p: Payload) returns (execute: Option<Payload>)
      requires Valid() && channel != [] && p == channel[0]
      modifies this
      ensures Valid() && View() == Received(old(View()))
      ensures lastBuilt == Some(p) && channel == old(channel)[1..]
      ensures var kept := if |old(payloadBuffer)| < 10 then old(payloadBuffer) else old(payloadBuffer)[1..];
              if old(lastProcessing).Some? then
                execute == None && lastProcessing == old(lastProcessing) && payloadBuffer == kept + [p]
              else execute == lastProcessing && lastProcessing.Some? && [lastProcessing.value] + payloadBuffer == kept + [p]
      ensures View() == old(View()).(lastBuilt := lastBuilt, channel := channel, processing := lastProcessing,
                                     buffer := payloadBuffer, dropped := dropped)
    {
      execute := None;
      channel := channel[1..];
      if |payloadBuffer| >= MAX_PAYLOAD_BUFFER_SIZE {
        payloadBuffer := payloadBuffer[1..];
        dropped := dropped + 1;
      }
      lastBuilt := Some(p);
      payloadBuffer := payloadBuffer + [p];
      if lastProcessing == None {
        lastProcessing, payloadBuffer := Some(payloadBuffer[0]), payloadBuffer[1..];
        execute := lastProcessing;
      }
    }

    /** Returns the payload to execute next, if any. */
    method OnCanonicalState(tip: nat) returns (execute: Option<Payload>)
      requires Valid()
      requires Advance(k, View(), tip).Running?
      modifies this, pool
      ensures Valid() && Running(View()) == Advance(k, old(View()), tip)
      ensures canonicalBlockNumber == tip
      ensures var p := old(lastProcessing);
              processed == old(processed) + if p.Some? && p.value.number == tip then [p.value] else []
      ensures if old(lastProcessing).Some? && old(lastProcessing).value.number == tip then
                && pool.next == old(pool.next) + k && execute == lastProcessing
                && (if lastProcessing.Some? then [lastProcessing.value] else []) + payloadBuffer == old(payloadBuffer)
                && (lastProcessing == None ==> old(payloadBuffer) == [])
              else execute == None && View() == old(View()).(canonical := tip)
      ensures View() == old(View()).(canonical := tip, pool := pool.View(), processed := processed,
                                     processing := lastProcessing, buffer := payloadBuffer)
    {
      execute := None;
      canonicalBlockNumber := tip;
      var pendingNumber := if lastProcessing.Some? then lastProcessing.value.number else 0;
      if pendingNumber == tip {
        var payload := lastProcessing.value;
        lastProcessing := None;
        pool.UpdateMinedBlock(payload.txHashes);
        processed := processed + [payload];
        if payloadBuffer != [] {
          lastProcessing, payloadBuffer := Some(payloadBuffer[0]), payloadBuffer[1..];
          execute := lastProcessing;
        }
      }
    }

    /** Returns the number of the parent a payload is asked for, if one is. */
    method OnTick() returns (parent: Option<nat>)
      requires Valid()
      modifies this
      ensures Valid() && View() == Asked(k, old(View()))
      ensures View() == old(View()).(requests := requests)
      ensures requests == old(requests) + if parent.Some? then [parent.value] else []
      ensures parent.Some? <==>
              && (lastBuilt == None || lastBuilt.value.number == canonicalBlockNumber)
              && k > 0 && forall r :: pool.next <= r < pool.next + k ==> r in pool.queue
      ensures parent.Some? ==> parent.value == if lastBuilt.Some? then lastBuilt.value.number else 0
    {
      parent := None;
      var lastNumber := if lastBuilt.Some? then lastBuilt.value.number else 0;
      if lastNumber == canonicalBlockNumber || lastBuilt == None {
        var batch := pool.NextCommittedSubdagBatch();
        if batch.Some? {
          parent := Some(lastNumber);
          requests := requests + [lastNumber];
        }
      }
    }
  }
}
