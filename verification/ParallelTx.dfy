/**
 `ParallelTxRO`: read transactions leased to any number of threads. The first transaction
 is counted by an atomic, the auxiliary ones in a table behind a mutex, and an auxiliary
 transaction is created outside the mutex after its slot is reserved.
 */
module ParallelTx {
  import opened Types

  /** A call in progress or a live cursor. */
  type Owner = nat

  type TxId = nat

  /** The transaction a holder was given: the first one, or an index with the transaction found there. */
  datatype Lease = First | Aux(index: nat, tx: TxId)

  /**
   Where an owner stands: past a failed fast path; with a slot reserved, creating outside the
   mutex; about to count itself on the first transaction; or holding a lease.
   */
  datatype Stage = Waiting | Creating | TakingFirst | Holding(lease: Lease)

  datatype WrappedTx = WrappedTx(tx: TxId, held: nat)

  /** `owners` and `failures` record who stands where and how many creations have failed. */
  datatype State = State(firstHeld: nat, txs: seq<WrappedTx>, numTxs: nat, owners: map<Owner, Stage>, failures: nat)

  const INITIAL := State(0, [], 1, map[], 0)

  function Put(st: State, o: Owner, stage: Stage): State {
    st.(owners := st.owners[o := stage])
  }

  function Gone(st: State, o: Owner): State {
    st.(owners := st.owners - {o})
  }

  /** The first index with the lowest count. */
  function LeastHeld(txs: seq<WrappedTx>): (i: nat)
    requires txs != []
    ensures i < |txs| && forall j :: 0 <= j < |txs| ==> txs[i].held <= txs[j].held
    ensures forall j :: 0 <= j < i ==> txs[i].held < txs[j].held
  {
    var n := |txs| - 1;
    if n == 0 then 0 else
      var i := LeastHeld(txs[..n]);
      if txs[n].held < txs[i].held then n else i
  }

  /** The decision under the mutex, with its one read of the atomic. */
  function Decide(maxTxs: nat, st: State, o: Owner): State {
    if st.txs == [] then
      if st.numTxs < maxTxs then Put(st, o, Creating).(numTxs := st.numTxs + 1) else Put(st, o, TakingFirst)
    else
      var i := LeastHeld(st.txs);
      var w := st.txs[i];
      if w.held > 0 && st.numTxs < maxTxs then Put(st, o, Creating).(numTxs := st.numTxs + 1)
      else if st.firstHeld >= w.held then
        Put(st, o, Holding(Aux(i, w.tx))).(txs := st.txs[i := w.(held := w.held + 1)])
      else Put(st, o, TakingFirst)
  }

  /** The atomic actions, each of one thread. */
  datatype Action =
    | Enter(o: Owner)                        // the compare-exchange of the fast path
    | Choose(o: Owner)                       // the decision under the mutex
    | CreateDone(o: Owner, tx: TxId)         // creation succeeded; pushed under the mutex
    | CreateFailed(o: Owner)                 // creation failed; the slot is given back
    | CountFirst(o: Owner)                   // the fetch-add on the first transaction
    | BecomeCursor(o: Owner, cursor: Owner)  // the call returns a cursor that keeps the lease
    | Release(o: Owner)                      // the call ends without a cursor, or the cursor is dropped

  /** Who may act when. A new call and a new cursor are new owners; a created transaction is a new one. */
  predicate Enabled(st: State, a: Action) {
    match a
    case Enter(o) => o !in st.owners
    case Choose(o) => o in st.owners && st.owners[o] == Waiting
    case CreateDone(o, tx) => o in st.owners && st.owners[o] == Creating && forall w :: w in st.txs ==> w.tx != tx
    case CreateFailed(o) => o in st.owners && st.owners[o] == Creating
    case CountFirst(o) => o in st.owners && st.owners[o] == TakingFirst
    case BecomeCursor(o, c) => o in st.owners && st.owners[o].Holding? && c !in st.owners
    case Release(o) => o in st.owners && st.owners[o].Holding?
  }

  datatype Outcome = Done(state: State) | NotEnabled | Underflow | BadIndex

  function Apply(maxTxs: nat, st: State, a: Action): Outcome {
    if !Enabled(st, a) then NotEnabled else
      match a
      case Enter(o) => Done(if st.firstHeld == 0 then Put(st, o, Holding(First)).(firstHeld := 1) else Put(st, o, Waiting))
      case Choose(o) => Done(Decide(maxTxs, st, o))
      case CreateDone(o, tx) => Done(Put(st, o, Holding(Aux(|st.txs|, tx))).(txs := st.txs + [WrappedTx(tx, 1)]))
      case CreateFailed(o) =>
        if st.numTxs == 0 then Underflow else Done(Gone(st, o).(numTxs := st.numTxs - 1, failures := st.failures + 1))
      case CountFirst(o) => Done(Put(st, o, Holding(First)).(firstHeld := st.firstHeld + 1))
      case BecomeCursor(o, c) => Done(Put(Gone(st, o), c, st.owners[o]))
      case Release(o) =>
        match st.owners[o].lease
        case First => if st.firstHeld == 0 then Underflow else Done(Gone(st, o).(firstHeld := st.firstHeld - 1))
        case Aux(i, _) =>
          if i >= |st.txs| then BadIndex
          else if st.txs[i].held == 0 then Underflow
          else Done(Gone(st, o).(txs := st.txs[i := st.txs[i].(held := st.txs[i].held - 1)]))
  }

  /** Any interleaving of any number of threads is a sequence of actions. */
  function After(maxTxs: nat, actions: seq<Action>): Outcome {
    if actions == [] then Done(INITIAL) else
      match After(maxTxs, actions[..|actions| - 1])
      case Done(st) => Apply(maxTxs, st, actions[|actions| - 1])
      case stopped => stopped
  }

  // ----- what every interleaving keeps -----

  function At(owners: map<Owner, Stage>, stage: Stage): set<Owner> {
    set o | o in owners && owners[o] == stage
  }

  /**
   Conservation: each count is the number of outstanding leases on its transaction, every
   lease names the transaction its index was issued for, and a slot is counted for the first
   transaction, for each one in the table and for each creation in flight.
   */
  ghost predicate Conserved(maxTxs: nat, st: State) {
    && st.firstHeld == |At(st.owners, Holding(First))|
    && (forall i :: 0 <= i < |st.txs| ==> Counted(st, i))
    && (forall o :: o in st.owners ==> LeaseNamed(st, st.owners[o]))
    && (forall i, j :: 0 <= i < j < |st.txs| ==> st.txs[i].tx != st.txs[j].tx)
    && st.numTxs == 1 + |st.txs| + |At(st.owners, Creating)|
    && st.numTxs <= maxTxs
  }

  ghost predicate Counted(st: State, i: nat)
    requires i < |st.txs|
  {
    st.txs[i].held == |At(st.owners, Holding(Aux(i, st.txs[i].tx)))|
  }

  ghost predicate LeaseNamed(st: State, stage: Stage) {
    stage.Holding? && stage.lease.Aux? ==> stage.lease.index < |st.txs| && st.txs[stage.lease.index].tx == stage.lease.tx
  }

  /** No transaction has more than one holder, and nobody is about to share the first one. */
  ghost predicate Unshared(st: State) {
    && st.firstHeld <= 1
    && (forall i :: 0 <= i < |st.txs| ==> st.txs[i].held <= 1)
    && At(st.owners, TakingFirst) == {}
  }

  class ParallelTxRO {
    const maxTxs: nat
    var txHeldCount: nat
    var txs: seq<WrappedTx>
    var numTxs: nat
    ghost var owners: map<Owner, Stage>
    ghost var failures: nat

    ghost function View(): State
      reads this
    {
      State(txHeldCount, txs, numTxs, owners, failures)
    }

    constructor ()
      ensures maxTxs == 8 && View() == INITIAL
    {
      maxTxs, txHeldCount, txs, numTxs, owners, failures := 8, 0, [], 1, map[], 0;
    }

    /** The compare-exchange. */
    method TryFastPath(ghost o: Owner) returns (taken: bool)
      requires Enabled(View(), Enter(o))
      modifies this
      ensures Done(View()) == Apply(maxTxs, old(View()), Enter(o))
      ensures taken <==> owners[o] == Holding(First)
      ensures taken <==> old(txHeldCount) == 0
    {
      taken := txHeldCount == 0;
      if taken {
        txHeldCount := 1;
      }
      owners := owners[o := if taken then Holding(First) else Waiting];
    }

    /** `min_by_key` over the table. */
    method FindLeastHeld() returns (i: nat)
      requires txs != []
      ensures i == LeastHeld(txs)
    {
      i := 0;
      for n := 1 to |txs|
        invariant i < n && i == LeastHeld(txs[..n])
      {
        assert txs[..n + 1][..n] == txs[..n];
        if txs[n].held < txs[i].held {
          i := n;
        }
      }
      assert txs[..|txs|] == txs;
    }

    /** The section of `execute_tx` under the mutex. */
    method Choose(ghost o: Owner)
      requires Enabled(View(), Action.Choose(o))
      modifies this
      ensures Done(View()) == Apply(maxTxs, old(View()), Action.Choose(o))
    {
      if txs != [] {
        var i := FindLeastHeld();
        var w := txs[i];
        if w.held > 0 && numTxs < maxTxs {
          numTxs := numTxs + 1;
          owners := owners[o := Creating];
        } else if txHeldCount >= w.held {
          txs := txs[i := w.(held := w.held + 1)];
          owners := owners[o := Holding(Aux(i, w.tx))];
        } else {
          owners := owners[o := TakingFirst];
        }
      } else if numTxs < maxTxs {
        numTxs := numTxs + 1;
        owners := owners[o := Creating];
      } else {
        owners := owners[o := TakingFirst];
      }
    }

    /** The second half of `create_aux_tx`, once the mutex is taken again. */
    method FinishCreate(ghost o: Owner, created: Option<TxId>) returns (index: Option<nat>)
      requires match created
               case None => Enabled(View(), CreateFailed(o)) && numTxs > 0
               case Some(tx) => Enabled(View(), CreateDone(o, tx))
      modifies this
      ensures Done(View()) ==
              Apply(maxTxs, old(View()), match created case None => CreateFailed(o) case Some(tx) => CreateDone(o, tx))
      ensures index == if created.Some? then Some(|old(txs)|) else None
    {
      match created {
        case Some(tx) =>
          index := Some(|txs|);
          owners := owners[o := Holding(Aux(|txs|, tx))];
          txs := txs + [WrappedTx(tx, 1)];
        case None =>
          index := None;
          numTxs := numTxs - 1;
          owners, failures := owners - {o}, failures + 1;
      }
    }

    /** The fetch-add on the first transaction. */
    method CountFirst(ghost o: Owner)
      requires Enabled(View(), Action.CountFirst(o))
      modifies this
      ensures Done(View()) == Apply(maxTxs, old(View()), Action.CountFirst(o))
    {
      txHeldCount := txHeldCount + 1;
      owners := owners[o := Holding(First)];
    }

    /** `post_tx_execution`, and the function a cursor runs when it is dropped; `index` is `None` for the first transaction. */
    method PostTxExecution(ghost o: Owner, index: Option<nat>)
      requires Enabled(View(), Release(o)) && Conserved(maxTxs, View())
      requires index == match owners[o].lease case First => None case Aux(i, _) => Some(i)
      modifies this
      ensures Done(View()) == Apply(maxTxs, old(View()), Release(o))
    {
      LeaseIsCounted(maxTxs, View(), o);
      match index {
        case None => txHeldCount := txHeldCount - 1;
        case Some(i) => txs := txs[i := txs[i].(held := txs[i].held - 1)];
      }
      owners := owners - {o};
    }
  }

  /** The count an owner is about to decrement is not zero, and its index is in the table. */
  lemma LeaseIsCounted(maxTxs: nat, st: State, o: Owner)
    requires Conserved(maxTxs, st) && o in st.owners && st.owners[o].Holding?
    ensures match st.owners[o].lease
            case First => st.firstHeld > 0
            case Aux(i, tx) => i < |st.txs| && st.txs[i].held > 0 && st.txs[i].tx == tx
  {
    assert o in At(st.owners, st.owners[o]);
    assert LeaseNamed(st, st.owners[o]);
    match st.owners[o].lease
    case First =>
    case Aux(i, _) => assert Counted(st, i);
  }
}
