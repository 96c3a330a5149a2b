/** What a built payload promises. */
module PackingLaws {
  import opened Sequences
  import opened Types
  import opened Ordering
  import opened OrderingLaws
  import opened Packing

  function TxsOf(included: seq<Included>): seq<Tx> {
    if included == [] then [] else TxsOf(included[..|included| - 1]) + [included[|included| - 1].tx]
  }

  function GasOf(included: seq<Included>): nat {
    if included == [] then 0 else GasOf(included[..|included| - 1]) + included[|included| - 1].gasUsed
  }

  function FeesOf(env: Env, included: seq<Included>): nat {
    if included == [] then 0 else
      var last := included[|included| - 1];
      FeesOf(env, included[..|included| - 1]) + env.tip(last.tx) * last.gasUsed
  }

  function BlobsIn(included: seq<Included>): nat {
    if included == [] then 0 else BlobsIn(included[..|included| - 1]) + BlobsOf(included[|included| - 1].tx)
  }

  // ----- capacity and accounting -----

  /** The capacity check refuses exactly what does not fit, unless the `u64` addition wraps around: then it never refuses. */
  lemma CapacityCheck(env: Env, gas: nat, t: Tx)
    requires gas <= env.gasLimit < U64 && t.gasLimit < U64
    ensures OverGas(env, gas, t) == (gas + t.gasLimit > env.gasLimit) <==> gas + t.gasLimit < U64
  {
    if gas + t.gasLimit >= U64 {
      assert (gas + t.gasLimit) % U64 == gas + t.gasLimit - U64;
    }
  }

  /** No addition of the capacity check can wrap around for these transactions. */
  ghost predicate NoWrap(env: Env, txs: seq<Tx>) {
    forall t :: t in txs ==> env.gasLimit + t.gasLimit < U64
  }

  /** The five counters of transactions looked at and left out. */
  function Rejected(acc: Acc): nat {
    acc.tooLow + acc.badSidecar + acc.overGas + acc.overBlobs + acc.failed
  }

  /** The bookkeeping of the loop once it has looked at `seen`. */
  ghost predicate Balanced(env: Env, seen: seq<Tx>, acc: Acc) {
    && acc.gas == GasOf(acc.included)
    && acc.fees == FeesOf(env, acc.included)
    && acc.blobs == BlobsIn(acc.included)
    && acc.blobs <= env.maxBlobs
    && acc.looked == |seen| == |acc.included| + Rejected(acc)
    && IsSubsequence(TxsOf(acc.included), seen)
    && (NoWrap(env, seen) ==> acc.gas <= env.gasLimit)
  }

  /** The parts of the state that end up in the payload. */
  predicate SamePayload(a: Acc, b: Acc) {
    a.world == b.world && a.gas == b.gas && a.blobs == b.blobs && a.fees == b.fees && a.included == b.included
  }

  lemma SkipCounts(env: Env, acc: Acc, t: Tx)
    requires Examine(env, acc, t).Skip?
    ensures var next := Examine(env, acc, t).next;
            SamePayload(acc, next) && next.looked == acc.looked + 1 && Rejected(next) == Rejected(acc) + 1
  {
  }

  lemma ExamineBalanced(env: Env, seen: seq<Tx>, acc: Acc, t: Tx)
    requires Lawful(env) && Balanced(env, seen, acc)
    ensures match Examine(env, acc, t)
            case Take(next) => Balanced(env, seen + [t], next)
            case Skip(next, _) => Balanced(env, seen + [t], next)
            case _ => true
  {
    hide Examine, TxsOf, GasOf, FeesOf, BlobsIn, IsSubsequence, NoWrap, Lawful;
    SubsequenceGrows(TxsOf(acc.included), seen, t);
    NoWrapBefore(env, seen, t);
    match Examine(env, acc, t)
    case Take(next) => TakeBalanced(env, acc, t, next);
    case Skip(next, _) => SkipCounts(env, acc, t);
    case _ =>
  }

  lemma NoWrapBefore(env: Env, seen: seq<Tx>, t: Tx)
    ensures NoWrap(env, seen + [t]) ==> NoWrap(env, seen) && env.gasLimit + t.gasLimit < U64
  {
    assert t in seen + [t] && forall x :: x in seen ==> x in seen + [t];
  }

  lemma TakeBalanced(env: Env, acc: Acc, t: Tx, next: Acc)
    requires Lawful(env) && Examine(env, acc, t) == Take(next)
    ensures |next.included| == |acc.included| + 1 && TxsOf(next.included) == TxsOf(acc.included) + [t]
    ensures GasOf(next.included) - GasOf(acc.included) == next.gas - acc.gas
    ensures FeesOf(env, next.included) - FeesOf(env, acc.included) == next.fees - acc.fees
    ensures BlobsIn(next.included) - BlobsIn(acc.included) == next.blobs - acc.blobs == BlobsOf(t)
    ensures acc.gas + t.gasLimit < U64 ==> next.gas <= env.gasLimit
    ensures acc.blobs <= env.maxBlobs ==> next.blobs <= env.maxBlobs
    ensures next.looked == acc.looked + 1 && Rejected(next) == Rejected(acc)
  {
    var last := next.included[|next.included| - 1];
    assert next.included == acc.included + [last];
    assert next.included[..|next.included| - 1] == acc.included;
    assert LawfulAt(env, acc.world, t);
  }

  lemma {:induction false} PackBalanced(env: Env, seen: seq<Tx>, txs: seq<Tx>, acc: Acc)
    requires Lawful(env) && Balanced(env, seen, acc)
    ensures match Pack(env, txs, acc) case Built(end) => Balanced(env, seen + txs, end) case _ => true
    decreases |txs|
  {
    if txs == [] {
      assert seen + txs == seen;
    } else {
      ExamineBalanced(env, seen, acc, txs[0]);
      assert seen + txs == seen + [txs[0]] + txs[1..];
      match Examine(env, acc, txs[0])
      case Take(next) => PackBalanced(env, seen + [txs[0]], txs[1..], next);
      case Skip(next, _) => PackBalanced(env, seen + [txs[0]], txs[1..], next);
      case _ =>
    }
  }

  /** A built payload: its totals are those of the included transactions, a part of the proposal, within both limits. */
  lemma PayloadBalanced(env: Env, txs: seq<Tx>, parent: World, end: Acc)
    requires Lawful(env) && Pack(env, txs, Start(parent)) == Built(end)
    ensures Balanced(env, txs, end)
  {
    SubsequenceOfNone<Tx>();
    assert Balanced(env, [], Start(parent));
    PackBalanced(env, [], txs, Start(parent));
    assert [] + txs == txs;
  }

  // ----- what decides, transaction by transaction -----

  lemma {:induction false} PackJoins(env: Env, a: seq<Tx>, b: seq<Tx>, acc: Acc)
    ensures Pack(env, a + b, acc) == if Pack(env, a, acc).Built? then Pack(env, b, Pack(env, a, acc).acc) else Pack(env, a, acc)
    decreases |a|
  {
    hide Examine;
    if a == [] {
      assert a + b == b;
    } else {
      assert (a + b)[1..] == a[1..] + b;
      match Examine(env, acc, a[0])
      case Take(next) => PackJoins(env, a[1..], b, next);
      case Skip(next, _) => PackJoins(env, a[1..], b, next);
      case _ =>
    }
  }

  lemma {:induction false} LooksAtAll(env: Env, txs: seq<Tx>, acc: Acc)
    requires Pack(env, txs, acc).Built?
    ensures Pack(env, txs, acc).acc.looked == acc.looked + |txs|
    decreases |txs|
  {
    if txs == [] {
    } else {
      LooksAtAll(env, txs[1..], Examine(env, acc, txs[0]).next);
    }
  }

  predicate FitsGas(env: Env, a: Acc, t: Tx) {
    (a.gas + t.gasLimit) % U64 <= env.gasLimit
  }

  predicate FitsBlobs(env: Env, a: Acc, t: Tx) {
    t.blobs.Some? ==> a.blobs + t.blobs.value <= env.maxBlobs
  }

  /** A transaction without blobs needs no sidecar. */
  predicate SidecarIs(env: Env, t: Tx, s: Sidecar) {
    t.blobs.Some? && env.sidecar(t) == s
  }

  /** It is executed: it fits, the job goes on, and its sidecar, if it needs one, is in order. */
  predicate Reaches(env: Env, a: Acc, t: Tx) {
    FitsGas(env, a, t) && !env.cancelled(a.looked + 1) && FitsBlobs(env, a, t) && (t.blobs.Some? ==> env.sidecar(t) == Good)
  }

  function One(b: bool): nat {
    if b then 1 else 0
  }

  /** The state after a transaction that was neither the end of the job nor of the build: exactly one of these lines grows. */
  ghost predicate Decided(env: Env, a: Acc, t: Tx, b: Acc) {
    var goesOn := FitsGas(env, a, t) && !env.cancelled(a.looked + 1);
    var e := env.execute(a.world, t);
    && b.looked == a.looked + 1
    && b.overGas == a.overGas + One(!FitsGas(env, a, t))
    && b.overBlobs == a.overBlobs + One(goesOn && !FitsBlobs(env, a, t))
    && b.badSidecar == a.badSidecar + One(goesOn && FitsBlobs(env, a, t) && SidecarIs(env, t, Bad))
    && b.tooLow == a.tooLow + One(Reaches(env, a, t) && e == NonceTooLow)
    && b.failed == a.failed + One(Reaches(env, a, t) && e == Invalid)
    && (if Reaches(env, a, t) && e.Executed? then
          b.included == a.included + [Included(t, e.gasUsed)] && b.world == e.after && b.gas == a.gas + e.gasUsed &&
          b.fees == a.fees + env.tip(t) * e.gasUsed && b.blobs == a.blobs + (if t.blobs.Some? then t.blobs.value else 0)
        else
          b.included == a.included && b.world == a.world && b.gas == a.gas && b.fees == a.fees && b.blobs == a.blobs)
  }

  lemma OneMore(env: Env, a: Acc, t: Tx)
    ensures Pack(env, [t], a) == Cancelled <==> FitsGas(env, a, t) && env.cancelled(a.looked + 1)
    ensures Pack(env, [t], a) == Failed <==>
              FitsGas(env, a, t) && !env.cancelled(a.looked + 1) && FitsBlobs(env, a, t) &&
              (SidecarIs(env, t, StoreError) || (!SidecarIs(env, t, Bad) && env.execute(a.world, t) == Fatal))
    ensures Pack(env, [t], a).Built? ==> Decided(env, a, t, Pack(env, [t], a).acc)
  {
    assert [t][1..] == [];
    PackStep(env, [t], a);
  }

  /**
   Exactly what each transaction does to the build, given what those before it left: when it
   ends the job, when it ends the build, and otherwise which counter or total grows and by how much.
   */
  lemma DecidesExactly(env: Env, txs: seq<Tx>, parent: World, i: nat)
    requires i < |txs| && Pack(env, txs[..i], Start(parent)).Built?
    ensures var a, t, now := Pack(env, txs[..i], Start(parent)).acc, txs[i], Pack(env, txs[..i + 1], Start(parent));
            && a.looked == i
            && (now == Cancelled <==> FitsGas(env, a, t) && env.cancelled(i + 1))
            && (now == Failed <==>
                FitsGas(env, a, t) && !env.cancelled(i + 1) && FitsBlobs(env, a, t) &&
                (SidecarIs(env, t, StoreError) || (!SidecarIs(env, t, Bad) && env.execute(a.world, t) == Fatal)))
            && (now.Built? ==> Decided(env, a, t, now.acc))
  {
    hide Examine, Pack, Decided;
    assert txs[..i + 1] == txs[..i] + [txs[i]];
    PackJoins(env, txs[..i], [txs[i]], Start(parent));
    LooksAtAll(env, txs[..i], Start(parent));
    OneMore(env, Pack(env, txs[..i], Start(parent)).acc, txs[i]);
  }

  /** The build of the first `i` transactions decides, unless it goes on. */
  lemma EndsEarly(env: Env, txs: seq<Tx>, parent: World, i: nat)
    requires i <= |txs| && !Pack(env, txs[..i], Start(parent)).Built?
    ensures Pack(env, txs, Start(parent)) == Pack(env, txs[..i], Start(parent))
  {
    hide Pack;
    assert txs == txs[..i] + txs[i..];
    PackJoins(env, txs[..i], txs[i..], Start(parent));
  }

  /** The build reaches position `i`, which has room for its gas, and finds the job cancelled. */
  ghost predicate CancelsAt(env: Env, txs: seq<Tx>, parent: World, i: nat) {
    i < |txs| && Pack(env, txs[..i], Start(parent)).Built? &&
    FitsGas(env, Pack(env, txs[..i], Start(parent)).acc, txs[i]) && env.cancelled(i + 1)
  }

  /** The build reaches position `i` with the job going on, and the blob store or the execution fails there. */
  ghost predicate FailsAt(env: Env, txs: seq<Tx>, parent: World, i: nat) {
    i < |txs| && Pack(env, txs[..i], Start(parent)).Built? &&
    var a, t := Pack(env, txs[..i], Start(parent)).acc, txs[i];
    FitsGas(env, a, t) && !env.cancelled(i + 1) && FitsBlobs(env, a, t) &&
    (SidecarIs(env, t, StoreError) || (!SidecarIs(env, t, Bad) && env.execute(a.world, t) == Fatal))
  }

  lemma {:induction false} StopsSomewhere(env: Env, txs: seq<Tx>, parent: World, n: nat)
    requires 0 < n <= |txs| && !Pack(env, txs[..n], Start(parent)).Built?
    ensures exists i: nat :: i < n && Pack(env, txs[..i], Start(parent)).Built? && !Pack(env, txs[..i + 1], Start(parent)).Built?
  {
    var i := n - 1;
    assert txs[..0] == [] && Pack(env, [], Start(parent)).Built?;
    if Pack(env, txs[..i], Start(parent)).Built? {
      assert i < n && Pack(env, txs[..i], Start(parent)).Built? && !Pack(env, txs[..i + 1], Start(parent)).Built?;
    } else {
      StopsSomewhere(env, txs, parent, i);
    }
  }

  /** Exactly when a build is cancelled, and exactly when it fails. */
  lemma StopsExactly(env: Env, txs: seq<Tx>, parent: World)
    ensures Pack(env, txs, Start(parent)) == Cancelled <==> exists i :: CancelsAt(env, txs, parent, i)
    ensures Pack(env, txs, Start(parent)) == Failed <==> exists i :: FailsAt(env, txs, parent, i)
  {
    hide Pack, Decided, FitsGas, FitsBlobs, SidecarIs;
    var outcome := Pack(env, txs, Start(parent));
    forall i: nat | i < |txs| && Pack(env, txs[..i], Start(parent)).Built?
      ensures CancelsAt(env, txs, parent, i) ==> outcome == Cancelled
      ensures FailsAt(env, txs, parent, i) ==> outcome == Failed
    {
      DecidesExactly(env, txs, parent, i);
      if !Pack(env, txs[..i + 1], Start(parent)).Built? {
        EndsEarly(env, txs, parent, i + 1);
      }
    }
    assert Pack(env, [], Start(parent)).Built? by { PackStep(env, [], Start(parent)); }
    if !outcome.Built? {
      assert txs[..|txs|] == txs;
      StopsSomewhere(env, txs, parent, |txs|);
      var i: nat :| i < |txs| && Pack(env, txs[..i], Start(parent)).Built? && !Pack(env, txs[..i + 1], Start(parent)).Built?;
      DecidesExactly(env, txs, parent, i);
      EndsEarly(env, txs, parent, i + 1);
      assert outcome == Cancelled ==> CancelsAt(env, txs, parent, i);
      assert outcome == Failed ==> FailsAt(env, txs, parent, i);
    }
  }

  /** Every blob transaction included has its sidecar in order. */
  lemma {:induction false} SidecarsGood(env: Env, txs: seq<Tx>, parent: World, end: Acc)
    requires Pack(env, txs, Start(parent)) == Built(end)
    ensures forall t :: t in TxsOf(end.included) && t.blobs.Some? ==> env.sidecar(t) == Good
  {
    if txs == [] {
    } else {
      var n := |txs| - 1;
      hide Pack;
      assert txs[..n + 1] == txs;
      if Pack(env, txs[..n], Start(parent)).Built? {
        var a := Pack(env, txs[..n], Start(parent)).acc;
        SidecarsGood(env, txs[..n], parent, a);
        DecidesExactly(env, txs, parent, n);
        if end.included != a.included {
          assert end.included[..|end.included| - 1] == a.included;
        }
      } else {
        EndsEarly(env, txs, parent, n);
      }
    }
  }

  /**
   An execution that accepts a transaction exactly at its sender's nonce, for at most `gas`,
   and tells a nonce below it from one above.
   */
  function NonceOnly(gas: nat, w: World, t: Tx): Execution {
    var n := NonceOf(w, t.sender);
    if t.nonce == n then Executed(Min(t.gasLimit, gas), World(w.nonces[t.sender := n + 1], w.rest))
    else if t.nonce < n then NonceTooLow
    else Invalid
  }

  /** A block environment around `NonceOnly`. */
  function Accepting(gasLimit: nat, maxBlobs: nat, gas: nat): Env {
    Env(gasLimit, maxBlobs, (w: World, t: Tx) => NonceOnly(gas, w, t), t => Good, t => 0, i => false)
  }

  lemma AcceptingLawful(gasLimit: nat, maxBlobs: nat, gas: nat)
    ensures Lawful(Accepting(gasLimit, maxBlobs, gas))
  {
    forall w, t
      ensures LawfulAt(Accepting(gasLimit, maxBlobs, gas), w, t)
    {
    }
  }

  lemma AcceptingExamine(gasLimit: nat, max: nat, gas: nat, acc: Acc, t: Tx)
    requires (acc.gas + t.gasLimit) % U64 <= gasLimit && acc.blobs + BlobsOf(t) <= max
    ensures var v := Examine(Accepting(gasLimit, max, gas), acc, t);
            if t.nonce == NonceOf(acc.world, t.sender) then
              v.Take? && Bumped(acc.world, v.next.world, t.sender) && v.next.gas == acc.gas + Min(t.gasLimit, gas) &&
              v.next.blobs == acc.blobs + BlobsOf(t)
            else v.Skip? && v.next.world == acc.world && v.next.gas == acc.gas && v.next.blobs == acc.blobs
  {
  }

  /** Where the addition wraps around, the gas limit does not hold: a transaction that claims all of `u64` slips through. */
  lemma WrapBreaksLimit() returns (env: Env, txs: seq<Tx>, parent: World)
    ensures Lawful(env) && env.gasLimit < U64 && forall t :: t in txs ==> t.gasLimit < U64
    ensures Pack(env, txs, Start(parent)).Built? && Pack(env, txs, Start(parent)).acc.gas > env.gasLimit
  {
    hide Examine, Lawful;
    env := Accepting(10, 0, 8);
    AcceptingLawful(10, 0, 8);
    var small, huge := Tx(1, 0, 0, 5, None), Tx(2, 0, 1, U64 - 1, None);
    txs, parent := [small, huge], World(map[], 0);
    assert txs[1..] == [huge] && [huge][1..] == [];
    AcceptingExamine(10, 0, 8, Start(parent), small);
    var first := Examine(env, Start(parent), small).next;
    assert NonceOf(first.world, 2) == NonceOf(parent, 2);
    AcceptingExamine(10, 0, 8, first, huge);
    var second := Examine(env, first, huge).next;
    assert Pack(env, [huge], first) == Pack(env, [], second);
  }

  // ----- when the gas limit holds -----

  /** The execution refuses a transaction that claims more gas than the block has. */
  ghost predicate RefusesTooLarge(env: Env) {
    forall w, t :: env.execute(w, t).Executed? ==> t.gasLimit <= env.gasLimit
  }

  /** Gas limits are `u64`. */
  ghost predicate Bounded(txs: seq<Tx>) {
    forall t :: t in txs ==> t.gasLimit < U64
  }

  /** With this block gas limit, every payload built by such an execution stays within it. */
  ghost predicate LimitHolds(gasLimit: nat) {
    forall env: Env, txs, parent ::
      env.gasLimit == gasLimit && Lawful(env) && RefusesTooLarge(env) && Bounded(txs) && Pack(env, txs, Start(parent)).Built? ==>
        Pack(env, txs, Start(parent)).acc.gas <= gasLimit
  }

  lemma {:induction false} PackWithin(env: Env, txs: seq<Tx>, acc: Acc)
    requires Lawful(env) && RefusesTooLarge(env) && 2 * env.gasLimit < U64 && acc.gas <= env.gasLimit
    ensures Pack(env, txs, acc).Built? ==> Pack(env, txs, acc).acc.gas <= env.gasLimit
    decreases |txs|
  {
    if txs == [] {
    } else {
      assert LawfulAt(env, acc.world, txs[0]);
      match Examine(env, acc, txs[0])
      case Take(next) => PackWithin(env, txs[1..], next);
      case Skip(next, _) => PackWithin(env, txs[1..], next);
      case _ =>
    }
  }

  /** An execution like `NonceOnly` that uses all gas claimed and refuses claims above `gasLimit`. */
  function Strict(gasLimit: nat): Env {
    Env(gasLimit, 0, (w: World, t: Tx) => if t.gasLimit <= gasLimit then NonceOnly(t.gasLimit, w, t) else Invalid,
        t => Good, t => 0, i => false)
  }

  lemma StrictLawful(gasLimit: nat)
    ensures Lawful(Strict(gasLimit)) && RefusesTooLarge(Strict(gasLimit))
  {
    forall w, t
      ensures LawfulAt(Strict(gasLimit), w, t)
    {
    }
  }

  lemma StrictExamine(gasLimit: nat, acc: Acc, t: Tx)
    requires t.blobs == None && t.gasLimit <= gasLimit && (acc.gas + t.gasLimit) % U64 <= gasLimit
    requires t.nonce == NonceOf(acc.world, t.sender)
    ensures var v := Examine(Strict(gasLimit), acc, t);
            v.Take? && v.next.gas == acc.gas + t.gasLimit && Bumped(acc.world, v.next.world, t.sender)
  {
  }

  lemma TwoFullBlocks(gasLimit: nat)
    requires gasLimit < U64 <= 2 * gasLimit
    ensures !LimitHolds(gasLimit)
  {
    hide Examine, Lawful;
    var env := Strict(gasLimit);
    StrictLawful(gasLimit);
    var one, two := Tx(1, 0, 0, gasLimit, None), Tx(2, 0, 1, gasLimit, None);
    var txs, parent := [one, two], World(map[], 0);
    assert txs[1..] == [two] && [two][1..] == [];
    StrictExamine(gasLimit, Start(parent), one);
    var first := Examine(env, Start(parent), one).next;
    assert NonceOf(first.world, 2) == NonceOf(parent, 2);
    assert (gasLimit + gasLimit) % U64 == 2 * gasLimit - U64;
    StrictExamine(gasLimit, first, two);
    var second := Examine(env, first, two).next;
    assert Pack(env, [two], first) == Pack(env, [], second);
    assert Bounded(txs);
    assert Pack(env, txs, Start(parent)) == Built(second);
  }

  /**
   Exactly when the limit holds: an execution that refuses claims above the block's gas
   limit never builds a payload above it, if and only if twice that limit fits into `u64`.
   */
  lemma LimitHoldsExactly(gasLimit: nat)
    requires gasLimit < U64
    ensures LimitHolds(gasLimit) <==> 2 * gasLimit < U64
  {
    if 2 * gasLimit < U64 {
      forall env: Env, txs, parent | env.gasLimit == gasLimit && Lawful(env) && RefusesTooLarge(env) &&
                                     Bounded(txs) && Pack(env, txs, Start(parent)).Built?
        ensures Pack(env, txs, Start(parent)).acc.gas <= gasLimit
      {
        PackWithin(env, txs, Start(parent));
      }
    } else {
      TwoFullBlocks(gasLimit);
    }
  }

  // ----- nonces -----

  /** From `w` to `after`, each sender's transactions in `txs` carry its nonces one by one, none left out. */
  ghost predicate Consecutive(w: World, txs: seq<Tx>, after: World) {
    forall s :: ConsecutiveFor(w, txs, after, s)
  }

  ghost predicate ConsecutiveFor(w: World, txs: seq<Tx>, after: World, s: Address) {
    && NonceOf(after, s) == NonceOf(w, s) + |Of(txs, s)|
    && forall i :: 0 <= i < |Of(txs, s)| ==> Of(txs, s)[i].nonce == NonceOf(w, s) + i
  }

  lemma ConsecutiveJoins(w: World, a: seq<Tx>, mid: World, b: seq<Tx>, after: World)
    requires Consecutive(w, a, mid) && Consecutive(mid, b, after)
    ensures Consecutive(w, a + b, after)
  {
    forall s
      ensures ConsecutiveFor(w, a + b, after, s)
    {
      assert ConsecutiveFor(w, a, mid, s) && ConsecutiveFor(mid, b, after, s);
      OfAppend(a, b, s);
    }
  }

  lemma ExecutedConsecutive(w: World, t: Tx, after: World)
    requires t.nonce == NonceOf(w, t.sender) && Bumped(w, after, t.sender)
    ensures Consecutive(w, [t], after)
  {
    forall s
      ensures ConsecutiveFor(w, [t], after, s)
    {
      assert [t][..0] == [];
      assert NonceOf(after, s) == NonceOf(w, s) + if s == t.sender then 1 else 0;
    }
  }

  lemma {:induction false} PackConsecutive(env: Env, txs: seq<Tx>, acc: Acc, w: World)
    requires Lawful(env) && Consecutive(w, TxsOf(acc.included), acc.world)
    ensures match Pack(env, txs, acc) case Built(end) => Consecutive(w, TxsOf(end.included), end.world) case _ => true
    decreases |txs|
  {
    if txs == [] {
    } else {
      match Examine(env, acc, txs[0])
      case Take(next) =>
        assert LawfulAt(env, acc.world, txs[0]);
        ExecutedConsecutive(acc.world, txs[0], next.world);
        TakeBalanced(env, acc, txs[0], next);
        ConsecutiveJoins(w, TxsOf(acc.included), acc.world, [txs[0]], next.world);
        PackConsecutive(env, txs[1..], next, w);
      case Skip(next, _) =>
        PackConsecutive(env, txs[1..], next, w);
      case _ =>
    }
  }

  /** Within a block each sender's included nonces form one contiguous run that starts at its account nonce. */
  lemma PayloadConsecutive(env: Env, txs: seq<Tx>, parent: World, end: Acc)
    requires Lawful(env) && Pack(env, txs, Start(parent)) == Built(end)
    ensures Consecutive(parent, TxsOf(end.included), end.world)
  {
    forall s
      ensures ConsecutiveFor(parent, [], parent, s)
    {
    }
    PackConsecutive(env, txs, Start(parent), parent);
  }

  /** ... so no sender and nonce is included twice. */
  lemma ConsecutiveDistinct(w: World, txs: seq<Tx>, after: World)
    requires Consecutive(w, txs, after)
    ensures NoDuplicateKey(txs) && AscendingPerSender(txs)
  {
    forall s
      ensures Ascending(Of(txs, s))
    {
      assert ConsecutiveFor(w, txs, after, s);
    }
    AscendingFromProjections(txs);
  }

  // ----- a mark_invalid that does nothing -----

  /** No sender has both a stale transaction, below its account nonce, and a due one, at its account nonce. */
  ghost predicate NoStaleBeforeDue(w: World, txs: seq<Tx>) {
    forall t, u :: t in txs && u in txs && t.sender == u.sender && t.nonce < NonceOf(w, t.sender) ==>
                     u.nonce != NonceOf(w, u.sender)
  }

  /** The senders in `dead` have no transaction at their account nonce left. */
  ghost predicate Blocked(w: World, txs: seq<Tx>, dead: set<Address>) {
    forall t :: t in txs && t.sender in dead ==> t.nonce != NonceOf(w, t.sender)
  }

  lemma {:induction false} LiveTwice(txs: seq<Tx>, a: set<Address>, b: set<Address>)
    ensures Live(Live(txs, a), b) == Live(txs, a + b)
  {
    if txs == [] {
    } else {
      LiveTwice(txs[1..], a, b);
      var rest := Live(txs[1..], a);
      if txs[0].sender !in a {
        assert Live(txs, a) == [txs[0]] + rest;
        assert ([txs[0]] + rest)[1..] == rest;
      } else {
        assert Live(txs, a) == rest;
      }
    }
  }

  lemma {:induction false} LiveAll(txs: seq<Tx>)
    ensures Live(txs, {}) == txs
  {
    if txs == [] {
    } else {
      LiveAll(txs[1..]);
    }
  }

  /** Apart from its counters, what the loop makes of a transaction does not depend on the counters. */
  lemma ExamineSame(env: Env, a: Acc, b: Acc, t: Tx)
    requires SamePayload(a, b) && forall i :: !env.cancelled(i)
    ensures match (Examine(env, a, t), Examine(env, b, t))
            case (Take(x), Take(y)) => SamePayload(x, y)
            case (Skip(x, m), Skip(y, n)) => SamePayload(x, y) && m == n && SamePayload(a, x)
            case (Fail, Fail) => true
            case _ => false
  {
  }

  /** What the two loops, one ahead with `txs` and one without the `dead` senders, keep in common. */
  ghost predicate InStep(w: World, txs: seq<Tx>, dead: set<Address>) {
    AscendingPerSender(txs) && NoStaleBeforeDue(w, txs) && Blocked(w, txs, dead)
  }

  lemma AscendingTail(txs: seq<Tx>)
    requires txs != [] && AscendingPerSender(txs)
    ensures AscendingPerSender(txs[1..])
    ensures forall x :: x in txs[1..] && x.sender == txs[0].sender ==> txs[0].nonce < x.nonce
  {
    assert forall i :: 0 <= i < |txs| - 1 ==> txs[1..][i] == txs[i + 1];
  }

  lemma AscendingCons(t: Tx, q: seq<Tx>)
    requires AscendingPerSender(q) && forall x :: x in q && x.sender == t.sender ==> t.nonce < x.nonce
    ensures AscendingPerSender([t] + q)
  {
    forall i, j | 0 <= i < j < |q| + 1 && ([t] + q)[i].sender == ([t] + q)[j].sender
      ensures ([t] + q)[i].nonce < ([t] + q)[j].nonce
    {
      assert q[j - 1] in q;
    }
  }

  lemma InStepRest(w: World, txs: seq<Tx>, dead: set<Address>)
    requires txs != [] && InStep(w, txs, dead)
    ensures InStep(w, txs[1..], dead)
    ensures txs[0].sender in dead ==> txs[0].nonce != NonceOf(w, txs[0].sender)
    ensures forall x :: x in txs[1..] && x.sender == txs[0].sender ==> txs[0].nonce < x.nonce
  {
    AscendingTail(txs);
    hide AscendingPerSender;
    assert forall x :: x in txs[1..] ==> x in txs;
    assert txs[0] in txs;
  }

  lemma InStepTaken(w: World, txs: seq<Tx>, dead: set<Address>, after: World)
    requires txs != [] && InStep(w, txs, dead) && txs[0].sender !in dead
    requires NonceOf(w, txs[0].sender) == txs[0].nonce && Bumped(w, after, txs[0].sender)
    ensures InStep(after, txs[1..], dead)
  {
    InStepRest(w, txs, dead);
    hide AscendingPerSender;
    assert forall x :: x in txs[1..] ==>
                         NonceOf(after, x.sender) == NonceOf(w, x.sender) + if x.sender == txs[0].sender then 1 else 0;
  }

  lemma InStepMarked(w: World, txs: seq<Tx>, dead: set<Address>)
    requires txs != [] && InStep(w, txs, dead)
    ensures InStep(w, txs[1..], dead + {txs[0].sender})
  {
    InStepRest(w, txs, dead);
    forall x | x in txs[1..] && x.sender == txs[0].sender
      ensures x.nonce != NonceOf(w, x.sender)
    {
      assert txs[0] in txs && x in txs;
    }
  }

  lemma {:induction false} DroppingSame(env: Env, txs: seq<Tx>, dead: set<Address>, a: Acc, b: Acc)
    requires Lawful(env) && forall i :: !env.cancelled(i)
    requires SamePayload(a, b) && InStep(a.world, txs, dead)
    requires Pack(env, txs, a).Built?
    ensures PackDropping(env, Live(txs, dead), b).Built?
    ensures SamePayload(Pack(env, txs, a).acc, PackDropping(env, Live(txs, dead), b).acc)
    decreases |txs|
  {
    hide InStep;
    if txs == [] {
    } else {
      var t, rest := txs[0], txs[1..];
      InStepRest(a.world, txs, dead);
      assert LawfulAt(env, a.world, t);
      ExamineSame(env, a, b, t);
      if t.sender in dead {
        assert Live(txs, dead) == Live(rest, dead);
        DroppingSame(env, rest, dead, Examine(env, a, t).next, b);
      } else {
        assert ([t] + Live(rest, dead))[1..] == Live(rest, dead);
        match Examine(env, a, t)
        case Take(next) =>
          InStepTaken(a.world, txs, dead, next.world);
          DroppingSame(env, rest, dead, next, Examine(env, b, t).next);
        case Skip(next, marked) =>
          InStepMarked(a.world, txs, dead);
          LiveTwice(rest, dead, {t.sender});
          DroppingSame(env, rest, if marked then dead + {t.sender} else dead, next, Examine(env, b, t).next);
        case Fail =>
      }
    }
  }

  /**
   The no-op `mark_invalid` refines the dependant-dropping one: on a proposal in nonce
   order without a stale transaction before a due one, both loops build the same payload.
   */
  lemma NoOpMarkInvalid(env: Env, txs: seq<Tx>, parent: World)
    requires Lawful(env) && forall i :: !env.cancelled(i)
    requires AscendingPerSender(txs) && NoStaleBeforeDue(parent, txs)
    requires Pack(env, txs, Start(parent)).Built?
    ensures PackDropping(env, txs, Start(parent)).Built?
    ensures SamePayload(Pack(env, txs, Start(parent)).acc, PackDropping(env, txs, Start(parent)).acc)
  {
    LiveAll(txs);
    DroppingSame(env, txs, {}, Start(parent), Start(parent));
  }

  // ----- why stale transactions matter -----

  function AllBlobs(txs: seq<Tx>): nat {
    if txs == [] then 0 else BlobsOf(txs[0]) + AllBlobs(txs[1..])
  }

  /**
   The execution reports every stale nonce as too low, unless it refuses the transaction
   whatever the state is, as it does one that pays less than the base fee.
   */
  ghost predicate ReportsStale(env: Env) {
    forall w, t :: ReportsStaleAt(env, w, t)
  }

  ghost predicate ReportsStaleAt(env: Env, w: World, t: Tx) {
    t.nonce < NonceOf(w, t.sender) ==> env.execute(w, t) == NonceTooLow || Refused(env, t)
  }

  ghost predicate Refused(env: Env, t: Tx) {
    forall w :: env.execute(w, t) == Invalid
  }

  /** An execution that refuses `refused` and otherwise looks at nonces only; no gas is used, so gas never decides. */
  function Refusing(refused: Tx, maxBlobs: nat): Env {
    Env(U64 - 1, maxBlobs, (w: World, t: Tx) => if t == refused then Invalid else NonceOnly(0, w, t),
        t => Good, t => 0, i => false)
  }

  lemma {:induction false} LiveBlobs(txs: seq<Tx>, dead: set<Address>)
    ensures AllBlobs(Live(txs, dead)) <= AllBlobs(txs)
    ensures forall t :: t in Live(txs, dead) <==> t in txs && t.sender !in dead
  {
    if txs == [] {
    } else {
      LiveBlobs(txs[1..], dead);
      var rest := Live(txs[1..], dead);
      assert Live(txs, dead) == if txs[0].sender in dead then rest else [txs[0]] + rest;
      assert ([txs[0]] + rest)[1..] == rest;
      assert forall t :: t in txs <==> t == txs[0] || t in txs[1..];
    }
  }

  lemma {:induction false} LiveAscends(txs: seq<Tx>, dead: set<Address>)
    requires AscendingPerSender(txs)
    ensures AscendingPerSender(Live(txs, dead))
  {
    hide AscendingPerSender;
    if txs == [] {
    } else {
      AscendingTail(txs);
      LiveAscends(txs[1..], dead);
      LiveBlobs(txs[1..], dead);
      if txs[0].sender in dead {
        assert Live(txs, dead) == Live(txs[1..], dead);
      } else {
        AscendingCons(txs[0], Live(txs[1..], dead));
      }
    }
  }

  lemma RefusingLawful(refused: Tx, max: nat)
    ensures Lawful(Refusing(refused, max)) && ReportsStale(Refusing(refused, max))
  {
    var env := Refusing(refused, max);
    forall w, t
      ensures LawfulAt(env, w, t)
      ensures ReportsStaleAt(env, w, t)
    {
    }
  }

  lemma RefusingExamine(refused: Tx, max: nat, acc: Acc, t: Tx)
    requires acc.gas == 0 && acc.blobs + BlobsOf(t) <= max
    ensures var v := Examine(Refusing(refused, max), acc, t);
            if t != refused && t.nonce == NonceOf(acc.world, t.sender) then
              v.Take? && Bumped(acc.world, v.next.world, t.sender) && v.next.gas == 0 && v.next.blobs == acc.blobs + BlobsOf(t)
            else
              v.Skip? && v.marked == (t == refused || t.nonce > NonceOf(acc.world, t.sender)) &&
              v.next.world == acc.world && v.next.gas == 0 && v.next.blobs == acc.blobs
  {
  }

  /** With nothing to drop them, a due transaction is included whatever came before it. */
  lemma {:induction false} DueIncluded(refused: Tx, max: nat, txs: seq<Tx>, acc: Acc, u: Tx)
    requires acc.gas == 0 && acc.blobs + AllBlobs(txs) <= max && u != refused
    requires NonceOf(acc.world, u.sender) > u.nonce || (u in txs && NonceOf(acc.world, u.sender) == u.nonce)
    ensures Pack(Refusing(refused, max), txs, acc).Built?
    ensures NonceOf(Pack(Refusing(refused, max), txs, acc).acc.world, u.sender) > u.nonce
    decreases |txs|
  {
    hide Refusing;
    if txs == [] {
    } else {
      var x := txs[0];
      RefusingExamine(refused, max, acc, x);
      var next := Examine(Refusing(refused, max), acc, x).next;
      assert u in txs ==> u == x || u in txs[1..];
      assert Examine(Refusing(refused, max), acc, x).Take? ==>
          NonceOf(next.world, u.sender) == NonceOf(acc.world, u.sender) + if u.sender == x.sender then 1 else 0;
      DueIncluded(refused, max, txs[1..], next, u);
    }
  }

  /** When dependants are dropped, a refused stale transaction takes all of its sender's later ones with it. */
  lemma {:induction false} StaleDrops(max: nat, txs: seq<Tx>, acc: Acc, t: Tx)
    requires acc.gas == 0 && acc.blobs + AllBlobs(txs) <= max && AscendingPerSender(txs)
    requires t.nonce < NonceOf(acc.world, t.sender)
    requires t in txs || forall x :: x in txs ==> x.sender != t.sender
    ensures PackDropping(Refusing(t, max), txs, acc).Built?
    ensures NonceOf(PackDropping(Refusing(t, max), txs, acc).acc.world, t.sender) == NonceOf(acc.world, t.sender)
    decreases |txs|
  {
    hide Refusing;
    if txs == [] {
    } else {
      var x, rest := txs[0], txs[1..];
      RefusingExamine(t, max, acc, x);
      LiveBlobs(rest, {x.sender});
      AscendingTail(txs);
      LiveAscends(rest, {x.sender});
      assert forall y :: y in txs <==> y == x || y in rest;
      assert x.sender == t.sender ==> x.nonce <= t.nonce;
      hide AscendingPerSender;
      match Examine(Refusing(t, max), acc, x)
      case Take(next) =>
        assert NonceOf(next.world, t.sender) == NonceOf(acc.world, t.sender) + if t.sender == x.sender then 1 else 0;
        StaleDrops(max, rest, next, t);
      case Skip(next, marked) => StaleDrops(max, if marked then Live(rest, {x.sender}) else rest, next, t);
    }
  }

  /** Under `env`, if the no-op loop builds a payload, the dependant-dropping one builds the same. */
  ghost predicate SameUnder(env: Env, txs: seq<Tx>, parent: World) {
    Pack(env, txs, Start(parent)).Built? ==>
      PackDropping(env, txs, Start(parent)).Built? &&
      SamePayload(Pack(env, txs, Start(parent)).acc, PackDropping(env, txs, Start(parent)).acc)
  }

  /** ... whatever a lawful execution does that reports stale nonces, and without cancellation. */
  ghost predicate SameUnderAnyExecution(txs: seq<Tx>, parent: World) {
    forall env :: Lawful(env) && ReportsStale(env) && (forall i :: !env.cancelled(i)) ==> SameUnder(env, txs, parent)
  }

  /**
   Exactly when the no-op is harmless: on a list in nonce order, both loops build the same
   payload under every execution if and only if no sender has both a stale and a due transaction.
   */
  lemma NoOpMarkInvalidIff(txs: seq<Tx>, parent: World)
    requires AscendingPerSender(txs)
    ensures SameUnderAnyExecution(txs, parent) <==> NoStaleBeforeDue(parent, txs)
  {
    hide Refusing, ReportsStale, Lawful;
    if NoStaleBeforeDue(parent, txs) {
      forall env | Lawful(env) && ReportsStale(env) && forall i :: !env.cancelled(i)
        ensures SameUnder(env, txs, parent)
      {
        if Pack(env, txs, Start(parent)).Built? {
          NoOpMarkInvalid(env, txs, parent);
        }
      }
    } else {
      var t, u :| t in txs && u in txs && t.sender == u.sender && t.nonce < NonceOf(parent, t.sender) &&
                  u.nonce == NonceOf(parent, u.sender);
      var max := AllBlobs(txs);
      RefusingLawful(t, max);
      NeverCancelled(t, max);
      DueIncluded(t, max, txs, Start(parent), u);
      StaleDrops(max, txs, Start(parent), t);
      assert !SameUnder(Refusing(t, max), txs, parent);
    }
  }

  lemma NeverCancelled(refused: Tx, max: nat)
    ensures forall i :: !Refusing(refused, max).cancelled(i)
  {
  }
}
