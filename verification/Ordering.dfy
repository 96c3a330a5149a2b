/**
 The re-ordering of a proposal (`create_proposal_transactions`): the senders keep the
 positions they have in the input, and each position is refilled with the lowest nonce
 its sender has left.
 */
module Ordering {
  import opened Types

  /** The transactions of sender `s`, in order. */
  function Of(txs: seq<Tx>, s: Address): seq<Tx> {
    if txs == [] then [] else
      var last := txs[|txs| - 1];
      Of(txs[..|txs| - 1], s) + if last.sender == s then [last] else []
  }

  /** For each nonce of sender `s`, the last transaction that carries it. */
  function Latest(txs: seq<Tx>, s: Address): map<nat, Tx> {
    if txs == [] then map[] else
      var last := txs[|txs| - 1];
      var m := Latest(txs[..|txs| - 1], s);
      if last.sender == s then m[last.nonce := last] else m
  }

  lemma LeastExists(ks: set<nat>) returns (k: nat)
    requires ks != {}
    ensures k in ks && forall j :: j in ks ==> k <= j
  {
    k :| k in ks;
    if ks != {k} {
      var y := LeastExists(ks - {k});
      assert forall j :: j in ks ==> j == k || j in ks - {k};
      k := if k <= y then k else y;
    }
  }

  /** The first key of an ordered map. */
  function Least(ks: set<nat>): (k: nat)
    requires ks != {}
    ensures k in ks && forall j :: j in ks ==> k <= j
  {
    assert exists k :: k in ks && forall j :: j in ks ==> k <= j by { var k := LeastExists(ks); }
    var k :| k in ks && forall j :: j in ks ==> k <= j;
    k
  }

  /** The values of an ordered map, by ascending key. */
  function InOrder(m: map<nat, Tx>): (q: seq<Tx>)
    ensures |q| == |m|
    decreases |m|
  {
    if m == map[] then [] else
      var k := Least(m.Keys);
      assert (m - {k}).Keys == m.Keys - {k};
      [m[k]] + InOrder(m - {k})
  }

  /** What sender `s` has to offer: one transaction per nonce, by ascending nonce. */
  function Queue(txs: seq<Tx>, s: Address): seq<Tx> {
    InOrder(Latest(txs, s))
  }

  /** How many of the first `n` positions belong to sender `s`. */
  function Rank(txs: seq<Tx>, n: nat, s: Address): nat
    requires n <= |txs|
  {
    |Of(txs[..n], s)|
  }

  /** What position `n` is refilled with: its sender's next transaction, if one is left. */
  function Slot(txs: seq<Tx>, n: nat): seq<Tx>
    requires n < |txs|
  {
    var s := txs[n].sender;
    var rank := Rank(txs, n, s);
    var q := Queue(txs, s);
    if rank < |q| then [q[rank]] else []
  }

  /** The first `n` positions of `txs`, each refilled from its sender's queue; the surplus vanishes. */
  function Refill(txs: seq<Tx>, n: nat): seq<Tx>
    requires n <= |txs|
  {
    if n == 0 then [] else Refill(txs, n - 1) + Slot(txs, n - 1)
  }

  function Reorder(txs: seq<Tx>): seq<Tx> {
    Refill(txs, |txs|)
  }

  function Nonces(q: seq<Tx>): set<nat> {
    set t | t in q :: t.nonce
  }

  function Keys(txs: seq<Tx>): set<Key> {
    set t | t in txs :: KeyOf(t)
  }

  ghost predicate Ascending(q: seq<Tx>) {
    forall i, j :: 0 <= i < j < |q| ==> q[i].nonce < q[j].nonce
  }

  /** Every sender's transactions appear by strictly increasing nonce. */
  ghost predicate AscendingPerSender(txs: seq<Tx>) {
    forall i, j :: 0 <= i < j < |txs| && txs[i].sender == txs[j].sender ==> txs[i].nonce < txs[j].nonce
  }

  ghost predicate NoDuplicateKey(txs: seq<Tx>) {
    forall i, j :: 0 <= i < j < |txs| ==> KeyOf(txs[i]) != KeyOf(txs[j])
  }

  /** No later position of `txs` carries the key of position `i`. */
  ghost predicate LastWriter(txs: seq<Tx>, i: nat)
    requires i < |txs|
  {
    forall j :: i < j < |txs| ==> KeyOf(txs[j]) != KeyOf(txs[i])
  }

  /** `t` is the last transaction of `txs` with its key. */
  ghost predicate IsLastWriter(txs: seq<Tx>, t: Tx) {
    exists i :: 0 <= i < |txs| && txs[i] == t && LastWriter(txs, i)
  }

  // ----- the loops -----

  /** `bySender` holds, for every sender of `txs`, its latest transaction per nonce. */
  ghost predicate Recorded(bySender: map<Address, map<nat, Tx>>, txs: seq<Tx>) {
    forall s :: RecordedFor(bySender, txs, s)
  }

  ghost predicate RecordedFor(bySender: map<Address, map<nat, Tx>>, txs: seq<Tx>, s: Address) {
    if s in bySender then bySender[s] == Latest(txs, s) != map[] else Latest(txs, s) == map[]
  }

  /** `bySender` holds what is left of the queues of `all` once the first `n` positions are refilled. */
  ghost predicate Remaining(bySender: map<Address, map<nat, Tx>>, all: seq<Tx>, n: nat)
    requires n <= |all|
  {
    forall s :: RemainingFor(bySender, all, n, s)
  }

  ghost predicate RemainingFor(bySender: map<Address, map<nat, Tx>>, all: seq<Tx>, n: nat, s: Address)
    requires n <= |all|
  {
    var q := Queue(all, s);
    if s in bySender then q != [] && InOrder(bySender[s]) == q[Min(Rank(all, n, s), |q|)..] else q == []
  }

  /** Inserts the transactions of one list into the ordered maps. */
  method Record(bySender: map<Address, map<nat, Tx>>, txs: seq<Tx>, ghost before: seq<Tx>)
    returns (result: map<Address, map<nat, Tx>>)
    requires Recorded(bySender, before)
    ensures Recorded(result, before + txs)
  {
    result := bySender;
    assert before + txs[..0] == before;
    for i := 0 to |txs|
      invariant Recorded(result, before + txs[..i])
    {
      var t := txs[i];
      var entry := if t.sender in result then result[t.sender] else map[];
      var next := result[t.sender := entry[t.nonce := t]];
      ghost var extended := before + txs[..i + 1];
      assert extended[..|extended| - 1] == before + txs[..i];
      assert t.nonce in entry[t.nonce := t];
      forall s
        ensures RecordedFor(next, extended, s)
      {
        assert RecordedFor(result, before + txs[..i], s);
      }
      assert extended == before + txs[..i + 1];
      result := next;
    }
    assert txs[..|txs|] == txs;
  }

  /** The first `n` positions of `all` are refilled into `sorted`. */
  ghost predicate Progress(bySender: map<Address, map<nat, Tx>>, sorted: seq<Tx>, all: seq<Tx>, n: nat) {
    n <= |all| && Remaining(bySender, all, n) && sorted == Refill(all, n)
  }

  /** Pops, for each position of `txs`, the first entry its sender has left. */
  method Drain(bySender: map<Address, map<nat, Tx>>, sorted: seq<Tx>, txs: seq<Tx>, ghost all: seq<Tx>, ghost before: seq<Tx>)
    returns (rest: map<Address, map<nat, Tx>>, result: seq<Tx>)
    requires before + txs <= all && Progress(bySender, sorted, all, |before|)
    ensures Progress(rest, result, all, |before + txs|)
  {
    hide Remaining, Refill;
    rest, result := bySender, sorted;
    for i := 0 to |txs|
      invariant Progress(rest, result, all, |before| + i)
    {
      var s := txs[i].sender;
      assert txs[i] == (before + txs)[|before| + i] == all[|before| + i];
      PopStep(rest, result, all, |before| + i);
      var entry := rest[s];
      if entry != map[] {
        var k := Least(entry.Keys);
        rest, result := rest[s := entry - {k}], result + [entry[k]];
      }
    }
  }

  /** Position `n` finds its sender's map, and popping it refills exactly that position. */
  lemma PopStep(bySender: map<Address, map<nat, Tx>>, sorted: seq<Tx>, all: seq<Tx>, n: nat)
    requires n < |all| && Progress(bySender, sorted, all, n)
    ensures all[n].sender in bySender
    ensures var s := all[n].sender; var entry := bySender[s];
            if entry == map[] then
              Progress(bySender, sorted, all, n + 1)
            else
              var k := Least(entry.Keys);
              Progress(bySender[s := entry - {k}], sorted + [entry[k]], all, n + 1)
  {
    var s := all[n].sender;
    PopFound(bySender, all, n);
    var entry := bySender[s];
    PopRemains(bySender, all, n);
    assert RemainingFor(bySender, all, n, s);
  }

  lemma PopFound(bySender: map<Address, map<nat, Tx>>, all: seq<Tx>, n: nat)
    requires n < |all| && Remaining(bySender, all, n)
    ensures all[n].sender in bySender
  {
    var s := all[n].sender;
    OfShape(all, s);
    QueueSize(all, s);
    assert all[n] in Of(all, s);
    assert RemainingFor(bySender, all, n, s);
  }

  lemma PopRemains(bySender: map<Address, map<nat, Tx>>, all: seq<Tx>, n: nat)
    requires n < |all| && Remaining(bySender, all, n) && all[n].sender in bySender
    ensures var s := all[n].sender; var entry := bySender[s];
            Remaining(if entry == map[] then bySender else bySender[s := entry - {Least(entry.Keys)}], all, n + 1)
  {
    var s := all[n].sender;
    var entry := bySender[s];
    var after := if entry == map[] then bySender else bySender[s := entry - {Least(entry.Keys)}];
    var m := n + 1;
    forall a
      ensures RemainingFor(after, all, m, a)
    {
      RankStep(all, n, a);
      assert RemainingFor(bySender, all, n, a);
    }
  }

  lemma RankStep(all: seq<Tx>, n: nat, s: Address)
    requires n < |all|
    ensures Rank(all, n + 1, s) == Rank(all, n, s) + if all[n].sender == s then 1 else 0
  {
    assert all[..n + 1][..n] == all[..n];
  }

  /** The four loops of `create_proposal_transactions`. */
  method CreateProposalTransactions(pending: seq<Tx>, batch: seq<Subdag>) returns (sorted: seq<Tx>)
    ensures sorted == Reorder(pending + Flatten(batch))
  {
    var bySender := Record(map[], pending, []);
    PrefixStart(pending, batch);
    for i := 0 to |batch|
      invariant Recorded(bySender, Prefix(pending, batch, i))
    {
      PrefixStep(pending, batch, i);
      bySender := Record(bySender, batch[i].transactions, Prefix(pending, batch, i));
    }
    ghost var all := Prefix(pending, batch, |batch|);
    RecordedRemains(bySender, all);
    sorted := [];
    bySender, sorted := Drain(bySender, sorted, pending, all, []);
    for i := 0 to |batch|
      invariant Progress(bySender, sorted, all, |Prefix(pending, batch, i)|)
    {
      PrefixStep(pending, batch, i);
      PrefixOf(pending, batch, i + 1);
      bySender, sorted := Drain(bySender, sorted, batch[i].transactions, all, Prefix(pending, batch, i));
    }
    Drained(bySender, all);
    assert forall s :: s in bySender ==> bySender[s] == map[];
    assert batch[..|batch|] == batch;
  }

  /** The pending transactions and those of the first `i` sub-DAGs. */
  ghost function Prefix(pending: seq<Tx>, batch: seq<Subdag>, i: nat): seq<Tx>
    requires i <= |batch|
  {
    pending + Flatten(batch[..i])
  }

  lemma PrefixStart(pending: seq<Tx>, batch: seq<Subdag>)
    ensures Prefix(pending, batch, 0) == pending == [] + pending
  {
  }

  lemma PrefixStep(pending: seq<Tx>, batch: seq<Subdag>, i: nat)
    requires i < |batch|
    ensures Prefix(pending, batch, i + 1) == Prefix(pending, batch, i) + batch[i].transactions
  {
    assert batch[..i + 1][..i] == batch[..i];
  }

  lemma {:induction false} PrefixOf(pending: seq<Tx>, batch: seq<Subdag>, i: nat)
    requires i <= |batch|
    ensures Prefix(pending, batch, i) <= Prefix(pending, batch, |batch|)
    decreases |batch| - i
  {
    if i == |batch| {
    } else {
      PrefixStep(pending, batch, i);
      PrefixOf(pending, batch, i + 1);
    }
  }

  lemma RecordedRemains(bySender: map<Address, map<nat, Tx>>, all: seq<Tx>)
    requires Recorded(bySender, all)
    ensures Remaining(bySender, all, 0)
  {
    forall s
      ensures RemainingFor(bySender, all, 0, s)
    {
      assert RecordedFor(bySender, all, s);
    }
  }

  /** Once every position is refilled, every sender's map is empty. */
  lemma Drained(bySender: map<Address, map<nat, Tx>>, all: seq<Tx>)
    requires Remaining(bySender, all, |all|)
    ensures forall s :: s in bySender ==> bySender[s] == map[]
  {
    assert all[..|all|] == all;
    forall s | s in bySender
      ensures bySender[s] == map[]
    {
      assert RemainingFor(bySender, all, |all|, s);
      QueueSize(all, s);
    }
  }

  // ----- projection on one sender -----

  lemma {:induction false} OfAppend(a: seq<Tx>, b: seq<Tx>, s: Address)
    ensures Of(a + b, s) == Of(a, s) + Of(b, s)
  {
    if b == [] {
      assert a + b == a;
    } else {
      var init := b[..|b| - 1];
      OfAppend(a, init, s);
      assert (a + b)[..|a + b| - 1] == a + init;
    }
  }

  lemma OfSplit(txs: seq<Tx>, n: nat, s: Address)
    requires n <= |txs|
    ensures Of(txs, s) == Of(txs[..n], s) + Of(txs[n..], s)
  {
    assert txs == txs[..n] + txs[n..];
    OfAppend(txs[..n], txs[n..], s);
  }

  lemma {:induction false} OfShape(txs: seq<Tx>, s: Address)
    ensures forall t :: t in Of(txs, s) <==> t in txs && t.sender == s
  {
    if txs == [] {
    } else {
      OfShape(txs[..|txs| - 1], s);
      assert txs == txs[..|txs| - 1] + [txs[|txs| - 1]];
    }
  }

  lemma {:induction false} LatestKeys(txs: seq<Tx>, s: Address)
    ensures Latest(txs, s).Keys == Nonces(Of(txs, s))
    ensures forall k :: k in Latest(txs, s) ==> Latest(txs, s)[k].nonce == k && Latest(txs, s)[k] in Of(txs, s)
  {
    if txs == [] {
    } else {
      LatestKeys(txs[..|txs| - 1], s);
    }
  }

  lemma {:induction false} LatestSize(txs: seq<Tx>, s: Address)
    ensures |Latest(txs, s)| <= |Of(txs, s)|
  {
    if txs == [] {
    } else {
      LatestSize(txs[..|txs| - 1], s);
    }
  }

  lemma QueueSize(txs: seq<Tx>, s: Address)
    ensures |Queue(txs, s)| <= |Of(txs, s)|
    ensures Queue(txs, s) == [] <==> Of(txs, s) == []
  {
    LatestSize(txs, s);
    LatestKeys(txs, s);
    if Of(txs, s) != [] {
      assert Of(txs, s)[0].nonce in Nonces(Of(txs, s));
    }
  }
}
