/** The values that travel from the committed DAG to a block. */
module Types {

  datatype Option<+T> = None | Some(value: T)

  /** A 20-byte account address; only equality matters here. */
  type Address = nat

  /** A 32-byte transaction hash; only equality matters here. */
  type TxHash = nat

  /** A decoded transaction. `blobs` is the number of versioned hashes of a blob transaction. */
  datatype Tx = Tx(sender: Address, nonce: nat, hash: TxHash, gasLimit: nat, blobs: Option<nat>)

  /** What the pool distinguishes transactions by. */
  datatype Key = Key(sender: Address, nonce: nat)

  function KeyOf(t: Tx): Key {
    Key(t.sender, t.nonce)
  }

  /** A committed sub-DAG: its commit round, its timestamp, its leader's address and the flattened transactions. */
  datatype Subdag = Subdag(round: nat, timestampMs: nat, leader: string, transactions: seq<Tx>)

  /** All transactions of a list of sub-DAGs, in order. */
  function Flatten(batch: seq<Subdag>): seq<Tx> {
    if batch == [] then [] else Flatten(batch[..|batch| - 1]) + batch[|batch| - 1].transactions
  }

  function Min(a: nat, b: nat): nat {
    if a <= b then a else b
  }

  lemma {:induction false} SubsetSize<T>(a: set<T>, b: set<T>)
    requires a <= b
    ensures |a| <= |b|
  {
    if a == {} {
    } else {
      var x :| x in a;
      SubsetSize(a - {x}, b - {x});
    }
  }
}
