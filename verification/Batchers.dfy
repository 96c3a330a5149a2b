/** The two batchers a raw transaction passes: the subscription of the execution client, then the validator. */
module Batchers {
  import opened Sequences
  import opened Types

  const BATCH_SIZE_THRESHOLD: nat := 100

  /** A raw transaction. */
  type Raw = nat

  /** A batch handed to consensus, and what made it due. */
  datatype Batch = Threshold(txs: seq<Raw>) | Timer(txs: seq<Raw>)

  /** The validator's loop: its buffer and counters, and the batches handed over so far. */
  datatype Validator = Validator(buffer: seq<Raw>, received: nat, sent: nat, batches: seq<Batch>)

  /** The subscription's loop: its buffer and counter, and the messages sent so far. */
  datatype Rpc = Rpc(buffer: seq<Raw>, sent: nat, messages: seq<seq<Raw>>)

  function Flush(r: Rpc): Rpc {
    Rpc([], r.sent + |r.buffer|, r.messages + [r.buffer])
  }

  function RpcReceive(r: Rpc, txs: seq<Raw>): Rpc {
    var now := r.(buffer := r.buffer + txs);
    if |now.buffer| >= BATCH_SIZE_THRESHOLD then Flush(now) else now
  }

  function RpcTimer(r: Rpc): Rpc {
    if r.buffer != [] then Flush(r) else r
  }

  function ValidatorReceive(max: nat, v: Validator, txs: seq<Raw>): Validator {
    var now := v.(buffer := v.buffer + txs, received := v.received + |txs|);
    if |now.buffer| >= max then
      now.(buffer := now.buffer[max..], sent := v.sent + max, batches := v.batches + [Threshold(now.buffer[..max])])
    else now
  }

  function ValidatorTimer(v: Validator): Validator {
    if v.buffer != [] then
      v.(buffer := [], sent := v.sent + |v.buffer|, batches := v.batches + [Timer(v.buffer)])
    else v
  }

  class RpcBatcher {
    var buffer: seq<Raw>
    var totalSent: nat
    ghost var messages: seq<seq<Raw>>

    ghost function View(): Rpc
      reads this
    {
      Rpc(buffer, totalSent, messages)
    }

    constructor ()
      ensures View() == Rpc([], 0, [])
    {
      buffer, totalSent, messages := [], 0, [];
    }

    method OnReceive(txs: seq<Raw>) returns (message: Option<seq<Raw>>)
      modifies this
      ensures View() == RpcReceive(old(View()), txs)
      ensures message.Some? <==> |old(buffer) + txs| >= 100
      ensures if message.Some? then message.value == old(buffer) + txs && buffer == [] else buffer == old(buffer) + txs
      ensures totalSent == old(totalSent) + if message.Some? then |message.value| else 0
      ensures messages == old(messages) + (if message.Some? then [message.value] else [])
    {
      message := None;
      buffer := buffer + txs;
      if |buffer| >= BATCH_SIZE_THRESHOLD {
        totalSent := totalSent + |buffer|;
        message := Some(buffer);
        messages := messages + [buffer];
        buffer := [];
      }
    }

    method OnTimer() returns (message: Option<seq<Raw>>)
      modifies this
      ensures View() == RpcTimer(old(View()))
      ensures buffer == [] && message == if old(buffer) == [] then None else Some(old(buffer))
      ensures totalSent == old(totalSent) + |old(buffer)|
      ensures messages == old(messages) + (if message.Some? then [message.value] else [])
    {
      message := None;
      if buffer != [] {
        totalSent := totalSent + |buffer|;
        message := Some(buffer);
        messages := messages + [buffer];
        buffer := [];
      }
    }
  }

  class ValidatorBatcher {
    const max: nat
    var buffer: seq<Raw>
    var totalReceived: nat
    var totalSent: nat
    ghost var batches: seq<Batch>

    ghost function View(): Validator
      reads this
    {
      Validator(buffer, totalReceived, totalSent, batches)
    }

    constructor (max: nat)
      ensures this.max == max && View() == Validator([], 0, 0, [])
    {
      this.max, buffer, totalReceived, totalSent, batches := max, [], 0, 0, [];
    }

    method OnReceive(txs: seq<Raw>) returns (batch: Option<seq<Raw>>)
      modifies this
      ensures View() == ValidatorReceive(max, old(View()), txs)
      ensures batch.Some? <==> |old(buffer) + txs| >= max
      ensures (if batch.Some? then batch.value else []) + buffer == old(buffer) + txs
      ensures batch.Some? ==> |batch.value| == max
      ensures totalReceived == old(totalReceived) + |txs|
      ensures totalSent == old(totalSent) + if batch.Some? then max else 0
      ensures batches == old(batches) + (if batch.Some? then [Threshold(batch.value)] else [])
    {
      batch := None;
      totalReceived := totalReceived + |txs|;
      for i := 0 to |txs|
        invariant buffer == old(buffer) + txs[..i]
        invariant totalReceived == old(totalReceived) + |txs| && totalSent == old(totalSent) && batches == old(batches)
      {
        buffer := buffer + [txs[i]];
      }
      assert txs[..|txs|] == txs;
      if |buffer| >= max {
        batch := Some(buffer[..max]);
        buffer := buffer[max..];
        totalSent := totalSent + |batch.value|;
        batches := batches + [Threshold(batch.value)];
      }
    }

    method OnTimer() returns (batch: Option<seq<Raw>>)
      modifies this
      ensures View() == ValidatorTimer(old(View()))
      ensures buffer == [] && batch == if old(buffer) == [] then None else Some(old(buffer))
      ensures totalReceived == old(totalReceived) && totalSent == old(totalSent) + |old(buffer)|
      ensures batches == old(batches) + (if batch.Some? then [Timer(batch.value)] else [])
    {
      batch := None;
      if buffer != [] {
        batch := Some(buffer);
        buffer := [];
        totalSent := totalSent + |batch.value|;
        batches := batches + [Timer(batch.value)];
      }
    }
  }

  // ----- the chain -----

  /**
   Both loops and the bounded broadcast channel before them. `waiting` is what the channel
   holds, `taken` what the subscription has received from it, `published` everything sent
   to it, and `lost` counts what it has overwritten. `sent` of the subscription's messages
   have gone out; `received` are those that reached the validator, and `failed` counts the others.
   */
  datatype Chain = Chain(
    published: seq<seq<Raw>>,
    waiting: seq<seq<Raw>>,
    lost: nat,
    taken: seq<seq<Raw>>,
    rpc: Rpc,
    sent: nat,
    received: seq<seq<Raw>>,
    failed: nat,
    validator: Validator)

  datatype Event = Publish(txs: seq<Raw>) | Receive | RpcTick | Send(arrives: bool) | ValidatorTick

  /** The channel holds `capacity` messages; one more overwrites the oldest. */
  function Published(capacity: nat, c: Chain, txs: seq<Raw>): Chain
    requires capacity > 0
  {
    var full := |c.waiting| >= capacity;
    c.(published := c.published + [txs],
       waiting := (if full then c.waiting[1..] else c.waiting) + [txs],
       lost := c.lost + if full then 1 else 0)
  }

  function Apply(capacity: nat, max: nat, c: Chain, e: Event): Chain
    requires capacity > 0
  {
    match e
    case Publish(txs) => Published(capacity, c, txs)
    case Receive =>
      if c.waiting == [] then c else
        c.(waiting := c.waiting[1..], taken := c.taken + [c.waiting[0]], rpc := RpcReceive(c.rpc, c.waiting[0]))
    case RpcTick => c.(rpc := RpcTimer(c.rpc))
    case Send(arrives) =>
      if c.sent >= |c.rpc.messages| then c
      else if arrives then
        var message := c.rpc.messages[c.sent];
        c.(sent := c.sent + 1, received := c.received + [message], validator := ValidatorReceive(max, c.validator, message))
      else c.(sent := c.sent + 1, failed := c.failed + 1)
    case ValidatorTick => c.(validator := ValidatorTimer(c.validator))
  }

  const INITIAL := Chain([], [], 0, [], Rpc([], 0, []), 0, [], 0, Validator([], 0, 0, []))

  function After(capacity: nat, max: nat, events: seq<Event>): Chain
    requires capacity > 0
  {
    if events == [] then INITIAL else
      Apply(capacity, max, After(capacity, max, events[..|events| - 1]), events[|events| - 1])
  }

  function Contents(batches: seq<Batch>): seq<Raw> {
    if batches == [] then [] else Contents(batches[..|batches| - 1]) + batches[|batches| - 1].txs
  }

  ghost predicate RpcInv(r: Rpc, input: seq<Raw>) {
    && Concat(r.messages) + r.buffer == input
    && r.sent == |Concat(r.messages)|
    && |r.buffer| < BATCH_SIZE_THRESHOLD
  }

  ghost predicate ValidatorInv(max: nat, v: Validator, input: seq<Raw>) {
    && Contents(v.batches) + v.buffer == input
    && v.sent == |Contents(v.batches)| && v.received == |input|
    && forall b :: b in v.batches ==> if b.Threshold? then |b.txs| == max else b.txs != []
  }

  /**
   What the channel has not overwritten is what was published, in order, without the
   overwritten messages; it holds the last messages published, `capacity` of them at most.
   */
  ghost predicate ChannelInv(capacity: nat, c: Chain) {
    && |c.taken + c.waiting| + c.lost == |c.published| && IsSubsequence(c.taken + c.waiting, c.published)
    && |c.waiting| <= capacity && c.waiting == c.published[|c.published| - |c.waiting|..]
  }

  /** What reached the validator is what went out, in order, without the failed messages. */
  ghost predicate LinkInv(c: Chain) {
    && c.sent <= |c.rpc.messages|
    && |c.received| + c.failed == c.sent
    && IsSubsequence(c.received, c.rpc.messages[..c.sent])
  }

  ghost predicate Inv(capacity: nat, max: nat, c: Chain) {
    && ChannelInv(capacity, c)
    && LinkInv(c)
    && RpcInv(c.rpc, Concat(c.taken))
    && ValidatorInv(max, c.validator, Concat(c.received))
  }

  lemma PublishKeeps(capacity: nat, c: Chain, txs: seq<Raw>)
    requires capacity > 0 && ChannelInv(capacity, c)
    ensures ChannelInv(capacity, Published(capacity, c, txs))
  {
    var kept, now := c.taken + c.waiting, Published(capacity, c, txs);
    if |c.waiting| >= capacity {
      var n := |c.taken|;
      SubsequenceDrop(kept, c.published, n);
      SubsequenceGrows(kept[..n] + kept[n + 1..], c.published, txs);
      assert now.taken + now.waiting == kept[..n] + kept[n + 1..] + [txs];
    } else {
      SubsequenceGrows(kept, c.published, txs);
      assert now.taken + now.waiting == kept + [txs];
    }
  }

  lemma FlushKeeps(r: Rpc)
    ensures Concat(Flush(r).messages) == Concat(r.messages) + r.buffer
  {
    ConcatSnoc(r.messages, r.buffer);
  }

  lemma ContentsSnoc(batches: seq<Batch>, b: Batch)
    ensures Contents(batches + [b]) == Contents(batches) + b.txs
  {
    assert (batches + [b])[..|batches + [b]| - 1] == batches;
  }

  lemma ValidatorReceiveKeeps(max: nat, v: Validator, input: seq<Raw>, txs: seq<Raw>)
    requires ValidatorInv(max, v, input)
    ensures ValidatorInv(max, ValidatorReceive(max, v, txs), input + txs)
  {
    var buffer := v.buffer + txs;
    if |buffer| >= max {
      ContentsSnoc(v.batches, Threshold(buffer[..max]));
      assert buffer == buffer[..max] + buffer[max..];
    }
  }

  lemma RpcReceiveKeeps(r: Rpc, input: seq<Raw>, txs: seq<Raw>)
    requires RpcInv(r, input)
    ensures RpcInv(RpcReceive(r, txs), input + txs) && r.messages <= RpcReceive(r, txs).messages
  {
    FlushKeeps(r.(buffer := r.buffer + txs));
  }

  lemma ValidatorTimerKeeps(max: nat, v: Validator, input: seq<Raw>)
    requires ValidatorInv(max, v, input)
    ensures ValidatorInv(max, ValidatorTimer(v), input)
  {
    ContentsSnoc(v.batches, Timer(v.buffer));
  }

  lemma ReceiveKeeps(capacity: nat, max: nat, c: Chain)
    requires capacity > 0 && Inv(capacity, max, c) && c.waiting != []
    ensures Inv(capacity, max, Apply(capacity, max, c, Receive))
  {
    hide Concat, Contents, IsSubsequence, ValidatorInv;
    var txs := c.waiting[0];
    RpcReceiveKeeps(c.rpc, Concat(c.taken), txs);
    ConcatSnoc(c.taken, txs);
    SamePrefix(c.rpc.messages, RpcReceive(c.rpc, txs).messages, c.sent);
    assert c.taken + [txs] + c.waiting[1..] == c.taken + c.waiting;
  }

  lemma SendKeeps(capacity: nat, max: nat, c: Chain, arrives: bool)
    requires capacity > 0 && Inv(capacity, max, c) && c.sent < |c.rpc.messages|
    ensures Inv(capacity, max, Apply(capacity, max, c, Send(arrives)))
  {
    hide Contents, IsSubsequence, Concat, ValidatorInv;
    var n := c.sent;
    var message := c.rpc.messages[n];
    assert c.rpc.messages[..n + 1] == c.rpc.messages[..n] + [message];
    SubsequenceGrows(c.received, c.rpc.messages[..n], message);
    ConcatSnoc(c.received, message);
    ValidatorReceiveKeeps(max, c.validator, Concat(c.received), message);
  }

  lemma StepKeeps(capacity: nat, max: nat, c: Chain, e: Event)
    requires capacity > 0 && Inv(capacity, max, c)
    ensures Inv(capacity, max, Apply(capacity, max, c, e))
  {
    hide Concat, Contents, IsSubsequence;
    match e
    case Publish(txs) => PublishKeeps(capacity, c, txs);
    case Receive =>
      if c.waiting != [] {
        ReceiveKeeps(capacity, max, c);
      }
    case RpcTick =>
      FlushKeeps(c.rpc);
      SamePrefix(c.rpc.messages, Flush(c.rpc).messages, c.sent);
    case Send(arrives) =>
      if c.sent < |c.rpc.messages| {
        SendKeeps(capacity, max, c, arrives);
      }
    case ValidatorTick => ValidatorTimerKeeps(max, c.validator, Concat(c.received));
  }

  lemma SamePrefix(a: seq<seq<Raw>>, b: seq<seq<Raw>>, n: nat)
    requires a <= b && n <= |a|
    ensures a[..n] == b[..n]
  {
  }

  lemma {:induction false} RunKeeps(capacity: nat, max: nat, events: seq<Event>)
    requires capacity > 0
    ensures Inv(capacity, max, After(capacity, max, events))
  {
    hide Inv, Apply;
    if events == [] {
      StartKeeps(capacity, max);
    } else {
      var init := events[..|events| - 1];
      RunKeeps(capacity, max, init);
      StepKeeps(capacity, max, After(capacity, max, init), events[|events| - 1]);
    }
  }

  lemma StartKeeps(capacity: nat, max: nat)
    ensures Inv(capacity, max, INITIAL)
  {
    SubsequenceOfNone<seq<Raw>>();
  }

  /**
   In every run the chain is order-preserving: what the channel keeps is a subsequence of
   what was published, what the subscription sent and buffers is what it took from there,
   what the validator received is a subsequence of what was sent, and what consensus was
   given and the validator buffers is what it received. Nothing overwritten and no failed
   message: then it is one queue.
   */
  lemma ChainIsQueue(capacity: nat, max: nat, events: seq<Event>)
    requires capacity > 0
    ensures var c := After(capacity, max, events);
            && Inv(capacity, max, c)
            && (c.lost == 0 <==> c.taken + c.waiting == c.published)
            && (c.failed == 0 <==> c.received == c.rpc.messages[..c.sent])
            && (c.failed == 0 ==>
                  Contents(c.validator.batches) + c.validator.buffer + Concat(c.rpc.messages[c.sent..]) + c.rpc.buffer
                  == Concat(c.taken))
  {
    hide After, Concat;
    RunKeeps(capacity, max, events);
    var c := After(capacity, max, events);
    ConcatSplit(c.rpc.messages, c.sent);
    if c.lost == 0 {
      SubsequenceWhole(c.taken + c.waiting, c.published);
    }
    if c.failed == 0 {
      SubsequenceWhole(c.received, c.rpc.messages[..c.sent]);
    }
  }

  /** The message published at position `i` finds the channel full. */
  ghost predicate FullAt(capacity: nat, max: nat, events: seq<Event>, i: nat)
    requires capacity > 0
  {
    i < |events| && events[i].Publish? && |After(capacity, max, events[..i]).waiting| >= capacity
  }

  /** The channel loses a message exactly when one is published while it is full. */
  lemma {:induction false} LosesExactly(capacity: nat, max: nat, events: seq<Event>)
    requires capacity > 0
    ensures After(capacity, max, events).lost > 0 <==> exists i :: FullAt(capacity, max, events, i)
  {
    hide Apply;
    if events == [] {
    } else {
      var n := |events| - 1;
      var init := events[..n];
      LosesExactly(capacity, max, init);
      forall i: nat | i < n
        ensures FullAt(capacity, max, init, i) <==> FullAt(capacity, max, events, i)
      {
        assert init[..i] == events[..i];
      }
      LosesStep(capacity, max, After(capacity, max, init), events[n]);
      assert FullAt(capacity, max, events, n) <==> After(capacity, max, events).lost > After(capacity, max, init).lost;
    }
  }

  lemma LosesStep(capacity: nat, max: nat, c: Chain, e: Event)
    requires capacity > 0
    ensures Apply(capacity, max, c, e).lost == c.lost + if e.Publish? && |c.waiting| >= capacity then 1 else 0
  {
  }

  /** The send at position `i` fails, and there is a message to send. */
  ghost predicate FailsAt(capacity: nat, max: nat, events: seq<Event>, i: nat)
    requires capacity > 0
  {
    i < |events| && events[i] == Send(false) &&
    var c := After(capacity, max, events[..i]);
    c.sent < |c.rpc.messages|
  }

  lemma FailsStep(capacity: nat, max: nat, c: Chain, e: Event)
    requires capacity > 0
    ensures Apply(capacity, max, c, e).failed == c.failed + if e == Send(false) && c.sent < |c.rpc.messages| then 1 else 0
  {
  }

  /** A message fails to reach the validator exactly when its one send fails. */
  lemma {:induction false} FailsExactly(capacity: nat, max: nat, events: seq<Event>)
    requires capacity > 0
    ensures After(capacity, max, events).failed > 0 <==> exists i :: FailsAt(capacity, max, events, i)
  {
    hide Apply;
    if events == [] {
    } else {
      var n := |events| - 1;
      var init := events[..n];
      FailsExactly(capacity, max, init);
      forall i: nat | i < n
        ensures FailsAt(capacity, max, init, i) <==> FailsAt(capacity, max, events, i)
      {
        assert init[..i] == events[..i];
      }
      FailsStep(capacity, max, After(capacity, max, init), events[n]);
      assert FailsAt(capacity, max, events, n) <==> After(capacity, max, events).failed > After(capacity, max, init).failed;
    }
  }

  // ----- letting the chain run dry -----

  /** `more` publishes nothing and fails no message. */
  predicate Drains(more: seq<Event>) {
    forall e :: e in more ==> !e.Publish? && e != Send(false)
  }

  lemma AfterSnoc(capacity: nat, max: nat, events: seq<Event>, e: Event)
    requires capacity > 0
    ensures After(capacity, max, events + [e]) == Apply(capacity, max, After(capacity, max, events), e)
  {
    assert (events + [e])[..|events + [e]| - 1] == events;
  }

  lemma {:induction false} ReceiveAll(capacity: nat, max: nat, events: seq<Event>) returns (more: seq<Event>)
    requires capacity > 0
    ensures Drains(more)
    ensures var c, now := After(capacity, max, events), After(capacity, max, events + more);
            && now.waiting == [] && now.published == c.published && now.lost == c.lost && now.failed == c.failed
            && now.validator == c.validator
    decreases |After(capacity, max, events).waiting|
  {
    hide After, RpcReceive;
    if After(capacity, max, events).waiting == [] {
      more := [];
      assert events + [] == events;
    } else {
      AfterSnoc(capacity, max, events, Receive);
      more := ReceiveAll(capacity, max, events + [Receive]);
      assert events + ([Receive] + more) == events + [Receive] + more;
      more := [Receive] + more;
    }
  }

  lemma {:induction false} SendAll(capacity: nat, max: nat, events: seq<Event>) returns (more: seq<Event>)
    requires capacity > 0
    ensures Drains(more)
    ensures var c, now := After(capacity, max, events), After(capacity, max, events + more);
            && now.sent >= |now.rpc.messages| && now.rpc == c.rpc && now.waiting == c.waiting
            && now.published == c.published && now.lost == c.lost && now.failed == c.failed
    decreases |After(capacity, max, events).rpc.messages| - After(capacity, max, events).sent
  {
    hide After, ValidatorReceive;
    if After(capacity, max, events).sent >= |After(capacity, max, events).rpc.messages| {
      more := [];
      assert events + [] == events;
    } else {
      AfterSnoc(capacity, max, events, Send(true));
      more := SendAll(capacity, max, events + [Send(true)]);
      assert events + ([Send(true)] + more) == events + [Send(true)] + more;
      more := [Send(true)] + more;
    }
  }

  /**
   Left to run without new messages or failures, the chain empties: one timer of each loop
   suffices, and if it has lost nothing, consensus has then been given exactly what was published.
   */
  lemma RunsDry(capacity: nat, max: nat, events: seq<Event>) returns (more: seq<Event>)
    requires capacity > 0
    ensures Drains(more)
    ensures var c, now := After(capacity, max, events), After(capacity, max, events + more);
            && now.waiting == [] && now.rpc.buffer == [] && now.validator.buffer == []
            && now.sent == |now.rpc.messages| && now.published == c.published
            && (c.lost == 0 && c.failed == 0 ==> Contents(now.validator.batches) == Concat(c.published))
  {
    hide After, Concat, Contents, Inv;
    var receive := ReceiveAll(capacity, max, events);
    var e1 := events + receive;
    AfterSnoc(capacity, max, e1, RpcTick);
    var send := SendAll(capacity, max, e1 + [RpcTick]);
    var e2 := e1 + [RpcTick] + send;
    AfterSnoc(capacity, max, e2, ValidatorTick);
    more := receive + [RpcTick] + send + [ValidatorTick];
    assert events + more == e2 + [ValidatorTick];
    DryIsComplete(capacity, max, events + more);
  }

  lemma DryIsComplete(capacity: nat, max: nat, events: seq<Event>)
    requires capacity > 0
    requires var c := After(capacity, max, events);
             c.waiting == [] && c.rpc.buffer == [] && c.validator.buffer == [] && c.sent >= |c.rpc.messages|
    ensures var c := After(capacity, max, events);
            && c.sent == |c.rpc.messages|
            && (c.lost == 0 && c.failed == 0 ==> Contents(c.validator.batches) == Concat(c.published))
  {
    hide After, Concat, Contents, RpcInv, ValidatorInv;
    ChainIsQueue(capacity, max, events);
    var c := After(capacity, max, events);
    assert c.rpc.messages[|c.rpc.messages|..] == [];
    assert Concat<Raw>([]) == [] by { NoneJoined(); }
    assert c.taken + [] == c.taken;
  }

  lemma NoneJoined()
    ensures Concat<Raw>([]) == []
  {
  }
}
