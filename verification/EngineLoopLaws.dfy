/** What the engine-handle loop keeps in every run. */
module EngineLoopLaws {
  import opened Sequences
  import opened Types
  import opened Ordering
  import opened Pool
  import opened PoolLaws
  import opened EngineLoop

  function Current(st: State): seq<Payload> {
    if st.processing.Some? then [st.processing.value] else []
  }

  /** The payloads built and neither matched nor discarded yet. */
  function Outstanding(st: State): seq<Payload> {
    Current(st) + st.buffer + st.channel
  }

  /** The payloads not discarded, from the first one matched to the last one built. */
  function Kept(st: State): seq<Payload> {
    st.processed + Outstanding(st)
  }

  /** The batches the matched payloads consumed, with the hashes each of them mined. */
  function StepsOf(dag: nat -> Subdag, k: nat, processed: seq<Payload>): seq<Step> {
    if processed == [] then [] else
      var n := |processed| - 1;
      StepsOf(dag, k, processed[..n]) + [Step(RoundTxs(dag, FirstRound(k, n), k), processed[n].txHashes)]
  }

  // ----- each step, outright -----

  /**
   A tick asks for a payload exactly when none has been received or the last one received is
   canonical, and the next `k` rounds are there; it asks for the child of that payload.
   */
  lemma TickExactly(k: nat, st: State)
    ensures Apply(k, st, Tick).Running?
    ensures var now := Apply(k, st, Tick).state;
            if (st.lastBuilt == None || st.lastBuilt.value.number == st.canonical) &&
               k > 0 && forall r :: st.pool.next <= r < st.pool.next + k ==> r in st.pool.queue
            then now == st.(requests := st.requests + [if st.lastBuilt.Some? then st.lastBuilt.value.number else 0])
            else now == st
  {
  }

  /** So does every tick of every run. */
  lemma TicksExactly(k: nat, events: seq<Event>, i: nat)
    requires i < |events| && events[i] == Tick && After(k, events[..i]).Running?
    ensures After(k, events[..i + 1]).Running?
    ensures var st, now := After(k, events[..i]).state, After(k, events[..i + 1]).state;
            if (st.lastBuilt == None || st.lastBuilt.value.number == st.canonical) &&
               k > 0 && forall r :: st.pool.next <= r < st.pool.next + k ==> r in st.pool.queue
            then now == st.(requests := st.requests + [if st.lastBuilt.Some? then st.lastBuilt.value.number else 0])
            else now == st
  {
    hide After, Apply;
    assert events[..i + 1] == events[..i] + [Tick];
    AfterSnoc(k, events[..i], Tick);
    TickExactly(k, After(k, events[..i]).state);
  }

  /**
   An answer takes its request away. It is a child of the parent asked for, from the next
   round if enough rounds are queued, and there is none exactly when these leave a gap.
   */
  lemma BuildExactly(k: nat, st: State, request: nat, id: nat, txHashes: set<TxHash>)
    ensures Apply(k, st, Build(request, id, txHashes)).Running?
    ensures var now := Apply(k, st, Build(request, id, txHashes)).state;
            if request >= |st.requests| then now == st
            else
              var rest := st.requests[..request] + st.requests[request + 1..];
              if |st.pool.queue| >= k && exists r :: st.pool.next <= r < st.pool.next + k && r !in st.pool.queue
              then now == st.(requests := rest)
              else
                var p := Payload(id, st.requests[request] + 1, if |st.pool.queue| >= k then Some(st.pool.next) else None,
                                 txHashes);
                now == st.(requests := rest, channel := st.channel + [p], built := st.built + [p])
  {
  }

  ghost predicate EndOf(recent: seq<Payload>, built: seq<Payload>) {
    |recent| <= |built| && recent == built[|built| - |recent|..]
  }

  /** What is buffered or on its way are the payloads built last, and `lastBuilt` is the last one received. */
  ghost predicate Latest(st: State) {
    && EndOf(st.buffer + st.channel, st.built)
    && st.lastBuilt == if |st.channel| == |st.built| then None else Some(st.built[|st.built| - |st.channel| - 1])
  }

  lemma EndOfEnd(recent: seq<Payload>, built: seq<Payload>, m: nat)
    requires EndOf(recent, built) && m <= |recent|
    ensures EndOf(recent[m..], built)
    ensures m < |recent| ==> recent[m] == built[|built| - |recent| + m]
  {
  }

  lemma LatestBuilt(st: State, p: Payload, requests: seq<nat>)
    requires Latest(st)
    ensures Latest(st.(requests := requests, channel := st.channel + [p], built := st.built + [p]))
  {
    var now := st.(requests := requests, channel := st.channel + [p], built := st.built + [p]);
    assert now.buffer + now.channel == st.buffer + st.channel + [p];
  }

  lemma LatestReceived(st: State)
    requires Latest(st) && IdleEmpty(st) && st.channel != []
    ensures Latest(Received(st))
  {
    hide EndOf, Received;
    var recent, m := st.buffer + st.channel, |st.buffer| - |Received(st).buffer| + 1;
    EndSizes(recent, st.built);
    Moved(st);
    EndOfEnd(recent, st.built, |st.buffer|);
    EndOfEnd(recent, st.built, m);
  }

  lemma EndSizes(recent: seq<Payload>, built: seq<Payload>)
    requires EndOf(recent, built)
    ensures |recent| <= |built|
  {
  }

  /** Receiving moves the boundary between buffer and channel, and may take payloads from the front. */
  lemma Moved(st: State)
    requires IdleEmpty(st) && st.channel != []
    ensures var now := Received(st);
            var m := |st.buffer| - |now.buffer| + 1;
            && 0 <= m <= |st.buffer + st.channel| && (st.buffer + st.channel)[m..] == now.buffer + now.channel
            && now.built == st.built && now.lastBuilt == Some((st.buffer + st.channel)[|st.buffer|])
            && |now.channel| == |st.channel| - 1
  {
    FrontMoves([], st.buffer, st.channel);
    var all := st.buffer + [st.channel[0]] + st.channel[1..];
    assert all == st.buffer + st.channel;
    if st.processing == None {
      assert all[1..] == st.channel[1..];
    } else if |st.buffer| >= MAX_PAYLOAD_BUFFER_SIZE {
      assert all[1..] == st.buffer[1..] + [st.channel[0]] + st.channel[1..];
    }
  }

  lemma LatestMatched(st: State, now: State)
    requires Latest(st) && now.built == st.built && now.channel == st.channel && now.lastBuilt == st.lastBuilt
    requires now.buffer == st.buffer || (st.buffer != [] && now.buffer == st.buffer[1..])
    ensures Latest(now)
  {
    hide EndOf;
    var recent := st.buffer + st.channel;
    if now.buffer != st.buffer {
      EndOfEnd(recent, st.built, 1);
      assert now.buffer + now.channel == recent[1..];
    }
  }

  lemma LatestStep(k: nat, st: State, e: Event)
    requires Latest(st) && IdleEmpty(st) && Apply(k, st, e).Running?
    ensures Latest(Apply(k, st, e).state)
  {
    hide Consumed, BatchReady, Added, Latest;
    var now := Apply(k, st, e).state;
    if e.Receive? {
      if st.channel != [] {
        LatestReceived(st);
      } else {
        ReceivesNothing(st);
      }
    } else if e.Build? && now.built != st.built {
      LatestBuilt(st, now.built[|st.built|], now.requests);
    } else {
      LatestMatched(st, now);
    }
  }

  /** While nothing is processing, nothing is buffered. */
  predicate IdleEmpty(st: State) {
    st.processing == None ==> st.buffer == []
  }

  lemma IdleStep(k: nat, st: State, e: Event)
    requires IdleEmpty(st) && Apply(k, st, e).Running?
    ensures IdleEmpty(Apply(k, st, e).state)
  {
    hide Consumed, BatchReady, Added;
  }

  ghost predicate BufferInv(st: State) {
    && |st.buffer| <= MAX_PAYLOAD_BUFFER_SIZE
    && IdleEmpty(st)
    && |Kept(st)| + st.dropped == |st.built|
    && IsSubsequence(Kept(st), st.built)
  }

  ghost predicate PoolInv(dag: nat -> Subdag, k: nat, st: State) {
    && st.pool.next == FirstRound(k, |st.processed|)
    && st.pool.pending == PendingAfter(StepsOf(dag, k, st.processed))
    && FromDag(dag, st.pool.queue)
  }

  lemma AnswerKeeps(k: nat, st: State, request: nat, id: nat, txHashes: set<TxHash>)
    requires BufferInv(st)
    ensures BufferInv(Answered(k, st, request, id, txHashes))
  {
    var now := Answered(k, st, request, id, txHashes);
    if now.built != st.built {
      SubsequenceGrows(Kept(st), st.built, now.built[|st.built|]);
      assert Kept(now) == Kept(st) + [now.built[|st.built|]];
    }
  }

  lemma FrontMoves(a: seq<Payload>, b: seq<Payload>, c: seq<Payload>)
    requires c != []
    ensures a + (b + [c[0]]) + c[1..] == a + b + c
  {
    assert c == [c[0]] + c[1..];
  }

  /** A received payload moves from the channel to the buffer; a full buffer loses its front. */
  lemma ReceivedOutstanding(st: State)
    requires st.channel != [] && IdleEmpty(st)
    ensures Outstanding(Received(st)) ==
            if |st.buffer| < MAX_PAYLOAD_BUFFER_SIZE then Outstanding(st)
            else Current(st) + st.buffer[1..] + st.channel
  {
    if st.processing == None {
      FrontMoves([], [], st.channel);
      assert Outstanding(Received(st)) == [] + ([] + [st.channel[0]]) + st.channel[1..];
    } else if |st.buffer| < MAX_PAYLOAD_BUFFER_SIZE {
      FrontMoves(Current(st), st.buffer, st.channel);
    } else {
      FrontMoves(Current(st), st.buffer[1..], st.channel);
    }
  }

  lemma ReceiveKeeps(st: State)
    requires BufferInv(st)
    ensures BufferInv(Received(st))
  {
    hide IsSubsequence;
    if st.channel != [] {
      ReceivedOutstanding(st);
      if |st.buffer| >= MAX_PAYLOAD_BUFFER_SIZE {
        var n := |st.processed| + 1;
        SubsequenceDrop(Kept(st), st.built, n);
        DropFront(st);
      }
    }
  }

  lemma DropFront(st: State)
    requires st.processing.Some? && st.buffer != []
    ensures var n := |st.processed| + 1;
            Kept(st)[..n] + Kept(st)[n + 1..] == st.processed + (Current(st) + st.buffer[1..] + st.channel)
  {
    var head, tail := st.processed + Current(st), st.buffer[1..] + st.channel;
    assert Kept(st) == head + [st.buffer[0]] + tail;
    assert head + tail == st.processed + (Current(st) + st.buffer[1..] + st.channel);
  }

  lemma AdvanceKeeps(k: nat, st: State, tip: nat)
    requires BufferInv(st) && Advance(k, st, tip).Running?
    ensures BufferInv(Advance(k, st, tip).state)
  {
    hide IsSubsequence, Consumed, BatchReady;
    assert Kept(Advance(k, st, tip).state) == Kept(st);
  }

  lemma AdvancePool(dag: nat -> Subdag, k: nat, st: State, tip: nat)
    requires PoolInv(dag, k, st) && Advance(k, st, tip).Running?
    ensures PoolInv(dag, k, Advance(k, st, tip).state)
  {
    hide RoundTxs, Reorder, Without;
    var now := Advance(k, st, tip).state;
    if now.processed != st.processed {
      var n := |st.processed|;
      assert now.processed[..n] == st.processed;
      BatchIsRounds(dag, st.pool, k);
      var run := StepsOf(dag, k, now.processed);
      assert run[..|run| - 1] == StepsOf(dag, k, st.processed);
    }
  }

  ghost predicate Committed(dag: nat -> Subdag, events: seq<Event>) {
    forall i :: 0 <= i < |events| && events[i].Submit? ==> forall d :: d in events[i].subdags ==> d == dag(d.round)
  }

  /**
   In every run that has not panicked: the buffer holds at most ten payloads and none unless
   one is processing; what was matched, is processing, is buffered and is on its way is what
   was built, in order, without the discarded ones, so all of it exactly when none was
   discarded; what is buffered and on its way was built last, so the oldest are discarded;
   and each matched payload consumed the next `k` rounds and left pending what was neither
   mined nor replaced.
   */
  lemma {:induction false} RunKeeps(dag: nat -> Subdag, k: nat, events: seq<Event>)
    requires Committed(dag, events) && After(k, events).Running?
    ensures var st := After(k, events).state;
            BufferInv(st) && Latest(st) && PoolInv(dag, k, st) && (st.dropped == 0 <==> Kept(st) == st.built)
  {
    hide Apply, BufferInv, PoolInv, Kept, Latest, IdleEmpty;
    if events == [] {
      StartKeeps(dag, k);
    } else {
      var init, last := events[..|events| - 1], events[|events| - 1];
      RunKeeps(dag, k, init);
      StepKeeps(dag, k, After(k, init).state, last);
      assert IdleEmpty(After(k, init).state) by { IdleBuffered(After(k, init).state); }
      LatestStep(k, After(k, init).state, last);
    }
    WholeUnlessDropped(After(k, events).state);
  }

  lemma IdleBuffered(st: State)
    requires BufferInv(st)
    ensures IdleEmpty(st)
  {
  }

  lemma StartKeeps(dag: nat -> Subdag, k: nat)
    ensures BufferInv(INITIAL) && Latest(INITIAL) && PoolInv(dag, k, INITIAL)
  {
    SubsequenceOfNone<Payload>();
  }

  lemma WholeUnlessDropped(st: State)
    requires BufferInv(st)
    ensures st.dropped == 0 <==> Kept(st) == st.built
  {
    hide Kept, IsSubsequence;
    if st.dropped == 0 {
      SubsequenceWhole(Kept(st), st.built);
    }
  }

  lemma StepKeeps(dag: nat -> Subdag, k: nat, st: State, e: Event)
    requires BufferInv(st) && PoolInv(dag, k, st) && Apply(k, st, e).Running?
    requires e.Submit? ==> forall d :: d in e.subdags ==> d == dag(d.round)
    ensures BufferInv(Apply(k, st, e).state) && PoolInv(dag, k, Apply(k, st, e).state)
  {
    hide RoundTxs, Reorder, Without, PendingAfter, StepsOf, IsSubsequence, FirstRound;
    match e
    case Submit(subdags) => AddedFromDag(dag, st.pool.queue, subdags);
    case Tick =>
    case Build(request, id, txHashes) => AnswerKeeps(k, st, request, id, txHashes);
    case Receive => ReceiveKeeps(st);
    case Canonical(tip) =>
      AdvanceKeeps(k, st, tip);
      AdvancePool(dag, k, st, tip);
  }

  // ----- panics -----

  /** The event at position `i` stops the run in the way `how`. */
  ghost predicate StopsAt(k: nat, events: seq<Event>, i: nat, how: Stepped) {
    i < |events| && After(k, events[..i]).Running? && Apply(k, After(k, events[..i]).state, events[i]) == how
  }

  lemma {:induction false} StopsExactly(k: nat, events: seq<Event>, how: Stepped)
    requires !how.Running?
    ensures After(k, events) == how <==> exists i :: StopsAt(k, events, i, how)
  {
    hide Apply;
    if events == [] {
    } else {
      var n := |events| - 1;
      var init := events[..n];
      StopsExactly(k, init, how);
      forall i: nat | i < n
        ensures StopsAt(k, init, i, how) <==> StopsAt(k, events, i, how)
      {
        assert init[..i] == events[..i];
      }
      assert After(k, init).Running? ==> (After(k, events) == how <==> StopsAt(k, events, n, how));
    }
  }

  /** The update at position `i` reports the genesis block while nothing is processing. */
  ghost predicate GenesisTipAt(k: nat, events: seq<Event>, i: nat) {
    i < |events| && events[i] == Canonical(0) && After(k, events[..i]).Running? &&
    After(k, events[..i]).state.processing == None
  }

  /** The update at position `i` reports the payload that is processing while a round of the next batch is missing. */
  ghost predicate MatchWithoutBatchAt(k: nat, events: seq<Event>, i: nat) {
    i < |events| && events[i].Canonical? && After(k, events[..i]).Running? &&
    var st := After(k, events[..i]).state;
    st.processing.Some? && st.processing.value.number == events[i].tip && !BatchReady(st.pool, k)
  }

  /** A run unwraps a missing payload exactly when an update reports the genesis block while nothing is processing. */
  lemma UnwrapsNoneExactly(k: nat, events: seq<Event>)
    ensures After(k, events) == NoPayload <==> exists i :: GenesisTipAt(k, events, i)
  {
    hide After;
    StopsExactly(k, events, NoPayload);
    forall i
      ensures StopsAt(k, events, i, NoPayload) <==> GenesisTipAt(k, events, i)
    {
    }
  }

  /** A run misses a batch exactly when an update reports the payload that is processing and the batch is incomplete. */
  lemma MissesBatchExactly(k: nat, events: seq<Event>)
    ensures After(k, events) == NoBatch <==> exists i :: MatchWithoutBatchAt(k, events, i)
  {
    hide After;
    StopsExactly(k, events, NoBatch);
    forall i
      ensures StopsAt(k, events, i, NoBatch) <==> MatchWithoutBatchAt(k, events, i)
    {
    }
  }

  /** ... so never while all canonical tips are 1 or higher. */
  lemma NeverUnwrapsNone(k: nat, events: seq<Event>)
    requires forall i :: 0 <= i < |events| && events[i].Canonical? ==> events[i].tip >= 1
    ensures After(k, events) != NoPayload
  {
    UnwrapsNoneExactly(k, events);
  }

  // ----- a payload and its batch -----

  /** The batch that a match would consume now is the one `p` was built from. */
  predicate Owns(p: Payload, st: State) {
    p.from == Some(st.pool.next)
  }

  /** `e` makes the builder send a payload. */
  predicate Sends(k: nat, st: State, e: Event) {
    e.Build? && Answered(k, st, e.request, e.id, e.txHashes).built != st.built
  }

  lemma {:induction false} FirstRoundGrows(k: nat, a: nat, b: nat)
    requires k > 0 && a < b
    ensures FirstRound(k, a) < FirstRound(k, b)
  {
    if a + 1 == b {
    } else {
      FirstRoundGrows(k, a, b - 1);
    }
  }

  lemma NextStep(k: nat, st: State, e: Event)
    requires Apply(k, st, e).Running?
    ensures var now := Apply(k, st, e).state;
            if |now.processed| == |st.processed| then now.pool.next == st.pool.next
            else |now.processed| == |st.processed| + 1 && now.pool.next == st.pool.next + k
  {
    hide BatchReady, Inserted, Without, Reorder;
  }

  lemma {:induction false} NextFollowsMatches(k: nat, events: seq<Event>)
    requires After(k, events).Running?
    ensures After(k, events).state.pool.next == FirstRound(k, |After(k, events).state.processed|)
  {
    hide Apply;
    if events == [] {
    } else {
      var init := events[..|events| - 1];
      NextFollowsMatches(k, init);
      NextStep(k, After(k, init).state, events[|events| - 1]);
    }
  }

  lemma {:induction false} MatchesGrow(k: nat, events: seq<Event>, i: nat)
    requires i <= |events| && After(k, events).Running?
    ensures After(k, events[..i]).Running?
    ensures |After(k, events[..i]).state.processed| <= |After(k, events).state.processed|
    decreases |events|
  {
    hide Apply;
    if i == |events| {
      assert events[..i] == events;
    } else {
      var init := events[..|events| - 1];
      MatchesGrow(k, init, i);
      NextStep(k, After(k, init).state, events[|events| - 1]);
      assert init[..i] == events[..i];
    }
  }

  /**
   Exactly when a payload still owns the next batch: it was built from one, and no payload
   has been matched since the builder sent it.
   */
  lemma OwnsExactly(k: nat, events: seq<Event>, i: nat)
    requires k > 0 && i < |events| && After(k, events).Running?
    ensures After(k, events[..i]).Running?
    ensures var before := After(k, events[..i]).state;
            Sends(k, before, events[i]) ==>
              var p := Apply(k, before, events[i]).state.built[|before.built|];
              Owns(p, After(k, events).state) <==>
              BatchReady(before.pool, k) && |After(k, events).state.processed| == |before.processed|
  {
    hide After, FirstRound;
    MatchesGrow(k, events, i);
    NextFollowsMatches(k, events);
    NextFollowsMatches(k, events[..i]);
    var m, n := |After(k, events[..i]).state.processed|, |After(k, events).state.processed|;
    if m < n {
      FirstRoundGrows(k, m, n);
    }
    if BatchReady(After(k, events[..i]).state.pool, k) {
      ReadyPassesGuard(After(k, events[..i]).state.pool, k);
    }
  }

  /** While an outstanding payload owns the next batch, that batch is complete. */
  ghost predicate OwnedReady(k: nat, st: State) {
    forall p :: p in Outstanding(st) && Owns(p, st) ==> BatchReady(st.pool, k)
  }

  /** No payload was built from a round that is still to come. */
  ghost predicate BuiltBehind(st: State) {
    forall p :: p in Outstanding(st) && p.from.Some? ==> p.from.value <= st.pool.next
  }

  lemma OutstandingStep(k: nat, st: State, e: Event)
    requires Apply(k, st, e).Running? && IdleEmpty(st)
    ensures forall p :: p in Outstanding(Apply(k, st, e).state) ==>
                          p in Outstanding(st) || (Sends(k, st, e) && p == Apply(k, st, e).state.built[|st.built|])
  {
    hide Consumed, BatchReady, Added, Received;
    if e.Receive? && st.channel != [] {
      ReceivedOutstanding(st);
    }
    assert e.Receive? && st.channel == [] ==> Received(st) == st by { ReceivesNothing(st); }
  }

  lemma ReceivesNothing(st: State)
    ensures st.channel == [] ==> Received(st) == st
  {
  }

  lemma OwnedStep(k: nat, st: State, e: Event)
    requires k > 0 && OwnedReady(k, st) && BuiltBehind(st) && IdleEmpty(st) && Apply(k, st, e).Running?
    ensures OwnedReady(k, Apply(k, st, e).state) && BuiltBehind(Apply(k, st, e).state)
  {
    hide Outstanding;
    OutstandingStep(k, st, e);
    if e.Submit? {
      InsertedRounds(st.pool.queue, e.subdags);
    }
  }

  lemma {:induction false} OwnedRun(k: nat, events: seq<Event>)
    requires k > 0 && After(k, events).Running?
    ensures var st := After(k, events).state; OwnedReady(k, st) && BuiltBehind(st) && IdleEmpty(st)
  {
    hide Apply, OwnedReady, BuiltBehind, IdleEmpty;
    if events == [] {
      NothingOutstanding(k);
    } else {
      var init := events[..|events| - 1];
      OwnedRun(k, init);
      OwnedStep(k, After(k, init).state, events[|events| - 1]);
      IdleStep(k, After(k, init).state, events[|events| - 1]);
    }
  }

  lemma NothingOutstanding(k: nat)
    ensures OwnedReady(k, INITIAL) && BuiltBehind(INITIAL) && IdleEmpty(INITIAL) && Outstanding(INITIAL) == []
  {
  }

  /** Matching a payload that owns the next batch finds the batch complete and consumes it. */
  lemma OwnMatchAdvances(k: nat, events: seq<Event>)
    requires k > 0 && After(k, events).Running?
    ensures var st := After(k, events).state;
            st.processing.Some? && Owns(st.processing.value, st) ==>
              Advance(k, st, st.processing.value.number).Running? &&
              Advance(k, st, st.processing.value.number).state.pool == Consumed(st.pool, k, st.processing.value.txHashes)
  {
    hide Consumed;
    OwnedRun(k, events);
    var st := After(k, events).state;
    assert st.processing.Some? ==> st.processing.value in Outstanding(st);
  }

  /** Each payload is built from a complete batch, while no other one is outstanding. */
  ghost predicate OneAtATime(k: nat, events: seq<Event>) {
    forall i :: 0 <= i < |events| && After(k, events[..i]).Running? && Sends(k, After(k, events[..i]).state, events[i]) ==>
                  SendsAlone(k, After(k, events[..i]).state)
  }

  ghost predicate SendsAlone(k: nat, st: State) {
    Outstanding(st) == [] && BatchReady(st.pool, k)
  }

  lemma {:induction false} OneAtATimeOwns(k: nat, events: seq<Event>)
    requires k > 0 && OneAtATime(k, events) && After(k, events).Running?
    ensures var st := After(k, events).state;
            |Outstanding(st)| <= 1 && IdleEmpty(st) && forall p :: p in Outstanding(st) ==> Owns(p, st)
  {
    hide Apply, Outstanding, IdleEmpty;
    if events == [] {
      NothingOutstanding(k);
    } else {
      var n := |events| - 1;
      var init := events[..n];
      assert forall i :: 0 <= i < n ==> init[..i] == events[..i];
      OneAtATimeOwns(k, init);
      AloneStep(k, After(k, init).state, events[n]);
      IdleStep(k, After(k, init).state, events[n]);
    }
  }

  lemma OutstandingSize(k: nat, st: State, e: Event)
    requires Apply(k, st, e).Running?
    ensures var now := Apply(k, st, e).state;
            && |Outstanding(now)| <= |Outstanding(st)| + (if Sends(k, st, e) then 1 else 0)
            && (if |now.processed| > |st.processed| then |Outstanding(now)| == |Outstanding(st)| - 1
                else now.pool.next == st.pool.next)
  {
    hide BatchReady, Inserted;
  }

  lemma AloneStep(k: nat, st: State, e: Event)
    requires k > 0 && |Outstanding(st)| <= 1 && IdleEmpty(st) && forall p :: p in Outstanding(st) ==> Owns(p, st)
    requires Sends(k, st, e) ==> SendsAlone(k, st)
    requires Apply(k, st, e).Running?
    ensures var now := Apply(k, st, e).state; |Outstanding(now)| <= 1 && forall p :: p in Outstanding(now) ==> Owns(p, now)
  {
    if Sends(k, st, e) {
      ReadyPassesGuard(st.pool, k);
      assert Owns(Apply(k, st, e).state.built[|st.built|], st);
    }
    hide Apply, Outstanding, Sends, Answered;
    OutstandingStep(k, st, e);
    OutstandingSize(k, st, e);
  }

  lemma OneAtATimeBefore(k: nat, events: seq<Event>, i: nat)
    requires OneAtATime(k, events) && i <= |events|
    ensures OneAtATime(k, events[..i])
  {
    hide Sends, SendsAlone, After;
    assert forall j :: 0 <= j < i ==> events[..i][..j] == events[..j];
  }

  lemma NoBatchMissingAt(k: nat, events: seq<Event>, i: nat)
    requires k > 0 && OneAtATime(k, events) && i < |events|
    ensures !MatchWithoutBatchAt(k, events, i)
  {
    hide OneAtATime, After;
    var init := events[..i];
    OneAtATimeBefore(k, events, i);
    if After(k, init).Running? {
      OneAtATimeOwns(k, init);
      OwnMatchAdvances(k, init);
    }
  }

  /** One payload at a time: every match consumes the batch its payload was built from, and none is ever missing. */
  lemma OneAtATimeMatchesOwn(k: nat, events: seq<Event>)
    requires k > 0 && OneAtATime(k, events)
    ensures After(k, events) != NoBatch
    ensures After(k, events).Running? && After(k, events).state.processing.Some? ==>
              Owns(After(k, events).state.processing.value, After(k, events).state)
  {
    hide After, OneAtATime;
    if After(k, events).Running? {
      OneAtATimeOwns(k, events);
    }
    MissesBatchExactly(k, events);
    forall i: nat | i < |events|
      ensures !MatchWithoutBatchAt(k, events, i)
    {
      NoBatchMissingAt(k, events, i);
    }
  }

  /** Nothing enforces this: any number of ticks ask for a payload before the first one arrives. */
  lemma {:induction false} TicksAskAgain(k: nat, events: seq<Event>, n: nat)
    requires After(k, events).Running? && Asks(k, After(k, events).state)
    ensures var st := After(k, events).state;
            After(k, events + Ticks(n)) == Running(st.(requests := st.requests + seq(n, i => NumberOf(st.lastBuilt))))
  {
    hide After, Apply, Asks;
    var st := After(k, events).state;
    if n == 0 {
      assert events + Ticks(0) == events && st.requests + seq(0, i => NumberOf(st.lastBuilt)) == st.requests;
    } else {
      TicksAskAgain(k, events, n - 1);
      assert events + Ticks(n) == events + Ticks(n - 1) + [Tick];
      AfterSnoc(k, events + Ticks(n - 1), Tick);
      TickAsks(k, st, st.requests + seq(n - 1, i => NumberOf(st.lastBuilt)));
      assert seq(n, i => NumberOf(st.lastBuilt)) == seq(n - 1, i => NumberOf(st.lastBuilt)) + [NumberOf(st.lastBuilt)];
    }
  }

  lemma TickAsks(k: nat, st: State, requests: seq<nat>)
    requires Asks(k, st)
    ensures Apply(k, st.(requests := requests), Tick) ==
            Running(st.(requests := requests + [NumberOf(st.lastBuilt)]))
  {
  }

  function Ticks(n: nat): seq<Event> {
    seq(n, i => Tick)
  }

  /**
   ... so two payloads of one number may be built from one batch. The second one becomes the
   payload to execute when the first is matched, and its match consumes a batch it was not built from.
   */
  lemma SecondPayloadTakesNextBatch(d: Subdag, e: Subdag) returns (events: seq<Event>)
    requires d.round == 1 && e.round == 2
    ensures After(1, events).Running?
    ensures var st := After(1, events).state;
            |st.processed| == 1 && st.processing.Some? && st.processing.value.number == 1 == st.processed[0].number &&
            st.processing.value.from == st.processed[0].from == Some(1) && st.pool.next == 2 &&
            Advance(1, st, 1).Running? && Advance(1, st, 1).state.pool.next == 3
  {
    hide After, Apply, Added;
    var e2 := TwoRequests(d, e);
    var st := After(1, e2).state;
    var steps := TwoPayloads(st);
    var b1, b2 := Build(0, 10, {}), Build(0, 11, {});
    AfterSnoc(1, e2, b1);
    AfterSnoc(1, e2 + [b1], b2);
    AfterSnoc(1, e2 + [b1] + [b2], Receive);
    AfterSnoc(1, e2 + [b1] + [b2] + [Receive], Receive);
    AfterSnoc(1, e2 + [b1] + [b2] + [Receive] + [Receive], Canonical(1));
    events := e2 + [b1] + [b2] + [Receive] + [Receive] + [Canonical(1)];
  }

  lemma TwoRequests(d: Subdag, e: Subdag) returns (events: seq<Event>)
    requires d.round == 1 && e.round == 2
    ensures After(1, events) == Running(INITIAL.(pool := Added(EMPTY_POOL, [d, e]), requests := [0, 0]))
    ensures var pool := Added(EMPTY_POOL, [d, e]); pool.next == 1 && pool.queue.Keys == {1, 2} && |pool.queue| == 2
  {
    var e1 := [Submit([d, e])];
    AfterSnoc(1, [], Submit([d, e]));
    assert [] + [Submit([d, e])] == e1;
    TwoQueued(d, e);
    TicksAskAgain(1, e1, 2);
    events := e1 + Ticks(2);
    assert After(1, events).state.requests == [0, 0];
  }

  /** From two open requests for a first payload to the match of the first of two payloads. */
  lemma TwoPayloads(st: State) returns (steps: (State, State, State, State, State))
    requires st == INITIAL.(pool := st.pool, requests := [0, 0])
    requires st.pool.next == 1 && st.pool.queue.Keys == {1, 2} && |st.pool.queue| == 2
    ensures Apply(1, st, Build(0, 10, {})) == Running(steps.0)
    ensures Apply(1, steps.0, Build(0, 11, {})) == Running(steps.1)
    ensures Apply(1, steps.1, Receive) == Running(steps.2)
    ensures Apply(1, steps.2, Receive) == Running(steps.3)
    ensures Apply(1, steps.3, Canonical(1)) == Running(steps.4)
    ensures |steps.4.processed| == 1 && steps.4.processing.Some? && steps.4.processing.value.number == 1
    ensures steps.4.processed[0].number == 1 && steps.4.pool.next == 2
    ensures steps.4.processing.value.from == steps.4.processed[0].from == Some(1)
    ensures Advance(1, steps.4, 1).Running? && Advance(1, steps.4, 1).state.pool.next == 3
  {
    hide Proposal, Without, Advance;
    var p, q := Payload(10, 1, Some(1), {}), Payload(11, 1, Some(1), {});
    var s1 := st.(requests := [0], channel := [p], built := [p]);
    var s2 := st.(requests := [], channel := [p, q], built := [p, q]);
    var s3 := s2.(processing := Some(p), lastBuilt := Some(p), channel := [q]);
    var s4 := s3.(lastBuilt := Some(q), buffer := [q], channel := []);
    var s5 := MatchesFirst(s4, p, q);
    assert [0, 0][..0] + [0, 0][1..] == [0] && [0][..0] + [0][1..] == [];
    assert [p, q][1..] == [q] && [q][1..] == [] && [p][1..] == [];
    steps := (s1, s2, s3, s4, s5);
  }

  lemma MatchesFirst(st: State, p: Payload, q: Payload) returns (now: State)
    requires st.processing == Some(p) && st.buffer == [q] && st.processed == [] && p.number == q.number == 1
    requires st.pool.next == 1 && st.pool.queue.Keys == {1, 2}
    ensures Advance(1, st, 1) == Running(now)
    ensures now.processed == [p] && now.processing == Some(q) && now.pool.next == 2
    ensures Advance(1, now, 1).Running? && Advance(1, now, 1).state.pool.next == 3
  {
    hide Proposal, Without;
    now := Advance(1, st, 1).state;
    assert now.pool.queue.Keys == {2};
  }

  lemma TwoQueued(d: Subdag, e: Subdag)
    requires d.round == 1 && e.round == 2
    ensures var pool := Added(EMPTY_POOL, [d, e]); pool.next == 1 && pool.queue.Keys == {1, 2} && |pool.queue| == 2
  {
    InsertedOne(map[], d);
    assert [d, e][..1] == [d];
    var queue := Added(EMPTY_POOL, [d, e]).queue;
    assert queue == map[1 := d, 2 := e];
    assert |queue.Keys| == 2;
  }

  lemma AfterSnoc(k: nat, events: seq<Event>, e: Event)
    ensures After(k, events + [e]) == if After(k, events).Running? then Apply(k, After(k, events).state, e) else After(k, events)
  {
    assert (events + [e])[..|events + [e]| - 1] == events;
  }
}
