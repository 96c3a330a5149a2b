/** Building one payload: the greedy loop over a proposal under gas and blob limits. */
module Packing {
  import opened Types

  const U64: nat := 0x1_0000_0000_0000_0000

  /** The execution state, of which the loop depends on the account nonces only. */
  datatype World = World(nonces: map<Address, nat>, rest: nat)

  function NonceOf(w: World, a: Address): nat {
    if a in w.nonces then w.nonces[a] else 0
  }

  datatype Execution = Executed(gasUsed: nat, after: World) | NonceTooLow | Invalid | Fatal

  datatype Sidecar = Good | Bad | StoreError

  /** The block environment and everything the loop calls. */
  datatype Env = Env(
    gasLimit: nat,
    maxBlobs: nat,
    execute: (World, Tx) -> Execution,
    sidecar: Tx -> Sidecar,
    tip: Tx -> nat,
    cancelled: nat -> bool)

  /** The account nonces of `after` are those of `w`, with the sender's raised by one. */
  ghost predicate Bumped(w: World, after: World, sender: Address) {
    forall a :: NonceOf(after, a) == NonceOf(w, a) + if a == sender then 1 else 0
  }

  /** A transaction executes only at its sender's nonce, raises only that nonce and stays within its gas limit. */
  ghost predicate Lawful(env: Env) {
    forall w, t :: LawfulAt(env, w, t)
  }

  ghost predicate LawfulAt(env: Env, w: World, t: Tx) {
    match env.execute(w, t)
    case Executed(gasUsed, after) => t.nonce == NonceOf(w, t.sender) && gasUsed <= t.gasLimit && Bumped(w, after, t.sender)
    case NonceTooLow => t.nonce < NonceOf(w, t.sender)
    case _ => true
  }

  datatype Included = Included(tx: Tx, gasUsed: nat)

  /** The variables of the loop. */
  datatype Acc = Acc(
    world: World,
    gas: nat,
    blobs: nat,
    fees: nat,
    included: seq<Included>,
    looked: nat,
    tooLow: nat,
    badSidecar: nat,
    overGas: nat,
    overBlobs: nat,
    failed: nat)

  function Start(w: World): Acc {
    Acc(w, 0, 0, 0, [], 0, 0, 0, 0, 0, 0)
  }

  function BlobsOf(t: Tx): nat {
    match t.blobs case None => 0 case Some(n) => n
  }

  /** The capacity check adds two `u64`. */
  predicate OverGas(env: Env, gas: nat, t: Tx) {
    (gas + t.gasLimit) % U64 > env.gasLimit
  }

  /** What the loop makes of one transaction; `marked` says whether it calls `mark_invalid`. */
  datatype Verdict = Take(next: Acc) | Skip(next: Acc, marked: bool) | Cancel | Fail

  function Examine(env: Env, acc: Acc, t: Tx): Verdict {
    var seen := acc.(looked := acc.looked + 1);
    if OverGas(env, acc.gas, t) then Skip(seen.(overGas := acc.overGas + 1), true)
    else if env.cancelled(seen.looked) then Cancel
    else if t.blobs.Some? && acc.blobs + BlobsOf(t) > env.maxBlobs then Skip(seen.(overBlobs := acc.overBlobs + 1), true)
    else if t.blobs.Some? && env.sidecar(t) == StoreError then Fail
    else if t.blobs.Some? && env.sidecar(t) == Bad then Skip(seen.(badSidecar := acc.badSidecar + 1), true)
    else
      match env.execute(acc.world, t)
      case Fatal => Fail
      case NonceTooLow => Skip(seen.(tooLow := acc.tooLow + 1), false)
      case Invalid => Skip(seen.(failed := acc.failed + 1), true)
      case Executed(gasUsed, after) =>
        Take(seen.(
             world := after,
             gas := acc.gas + gasUsed,
             blobs := acc.blobs + BlobsOf(t),
             fees := acc.fees + env.tip(t) * gasUsed,
             included := acc.included + [Included(t, gasUsed)]))
  }

  datatype Outcome = Built(acc: Acc) | Cancelled | Failed

  /** The loop, with a `mark_invalid` that does nothing. */
  function Pack(env: Env, txs: seq<Tx>, acc: Acc): Outcome {
    if txs == [] then Built(acc) else
      match Examine(env, acc, txs[0])
      case Take(next) => Pack(env, txs[1..], next)
      case Skip(next, _) => Pack(env, txs[1..], next)
      case Cancel => Cancelled
      case Fail => Failed
  }

  lemma PackStep(env: Env, txs: seq<Tx>, acc: Acc)
    ensures txs == [] ==> Pack(env, txs, acc) == Built(acc)
    ensures txs != [] ==>
              var v := Examine(env, acc, txs[0]);
              Pack(env, txs, acc) ==
              if v.Take? || v.Skip? then Pack(env, txs[1..], v.next) else if v.Cancel? then Cancelled else Failed
  {
  }

  /** `txs` without the transactions of the senders in `dead`. */
  function Live(txs: seq<Tx>, dead: set<Address>): (live: seq<Tx>)
    ensures |live| <= |txs|
  {
    if txs == [] then [] else
      (if txs[0].sender in dead then [] else [txs[0]]) + Live(txs[1..], dead)
  }

  /** The loop its comments describe: `mark_invalid` removes the dependants, the sender's later transactions. */
  function PackDropping(env: Env, txs: seq<Tx>, acc: Acc): Outcome
    decreases |txs|
  {
    if txs == [] then Built(acc) else
      match Examine(env, acc, txs[0])
      case Take(next) => PackDropping(env, txs[1..], next)
      case Skip(next, marked) =>
        PackDropping(env, if marked then Live(txs[1..], {txs[0].sender}) else txs[1..], next)
      case Cancel => Cancelled
      case Fail => Failed
  }

  class BestMysticetiTransactions {
    var txs: seq<Tx>

    constructor (proposal: seq<Tx>)
      ensures txs == proposal
    {
      txs := proposal;
    }

    method Next() returns (t: Option<Tx>)
      modifies this
      ensures if old(txs) == [] then t == None && txs == [] else t == Some(old(txs)[0]) && txs == old(txs)[1..]
    {
      if txs == [] {
        return None;
      }
      t, txs := Some(txs[0]), txs[1..];
    }

    method MarkInvalid(t: Tx)
      ensures txs == old(txs)
    {
    }
  }

  /** The packing loop of `mysticeti_ethereum_payload`. */
  method MysticetiEthereumPayload(env: Env, best: BestMysticetiTransactions, parent: World) returns (outcome: Outcome)
    modifies best
    ensures outcome == Pack(env, old(best.txs), Start(parent))
    ensures outcome.Built? ==> best.txs == []
  {
    hide Pack;
    var world, included := parent, [];
    var gas: nat, blobs: nat, fees: nat := 0, 0, 0;
    var looked, tooLow, badSidecar, overGas, overBlobs, failed := 0, 0, 0, 0, 0, 0;
    while true
      invariant Pack(env, best.txs, Acc(world, gas, blobs, fees, included, looked, tooLow, badSidecar, overGas, overBlobs, failed))
             == Pack(env, old(best.txs), Start(parent))
      decreases |best.txs|
    {
      PackStep(env, best.txs, Acc(world, gas, blobs, fees, included, looked, tooLow, badSidecar, overGas, overBlobs, failed));
      var next := best.Next();
      if next == None {
        break;
      }
      var t := next.value;
      looked := looked + 1;
      if (gas + t.gasLimit) % U64 > env.gasLimit {
        best.MarkInvalid(t);
        overGas := overGas + 1;
        continue;
      }
      if env.cancelled(looked) {
        return Cancelled;
      }
      if t.blobs.Some? {
        if blobs + t.blobs.value > env.maxBlobs {
          best.MarkInvalid(t);
          overBlobs := overBlobs + 1;
          continue;
        }
        var sidecar := env.sidecar(t);
        if sidecar == StoreError {
          return Failed;
        }
        if sidecar == Bad {
          best.MarkInvalid(t);
          badSidecar := badSidecar + 1;
          continue;
        }
      }
      var gasUsed;
      match env.execute(world, t) {
        case Executed(used, after) =>
          world, gasUsed := after, used;
        case NonceTooLow =>
          tooLow := tooLow + 1;
          continue;
        case Invalid =>
          failed := failed + 1;
          best.MarkInvalid(t);
          continue;
        case Fatal =>
          return Failed;
      }
      if t.blobs.Some? {
        blobs := blobs + t.blobs.value;
      }
      fees := fees + env.tip(t) * gasUsed;
      gas := gas + gasUsed;
      included := included + [Included(t, gasUsed)];
    }
    return Built(Acc(world, gas, blobs, fees, included, looked, tooLow, badSidecar, overGas, overBlobs, failed));
  }
}
