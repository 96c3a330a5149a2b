/** What the re-ordering promises: contents, order, fixpoints and composition. */
module OrderingLaws {
  import opened Types
  import opened Ordering

  // ----- one sender's queue -----

  lemma {:induction false} InOrderContents(m: map<nat, Tx>)
    requires forall k :: k in m ==> m[k].nonce == k
    ensures forall t :: t in InOrder(m) <==> t.nonce in m && m[t.nonce] == t
    decreases |m|
  {
    if m == map[] {
    } else {
      var k := Least(m.Keys);
      var rest := m - {k};
      InOrderContents(rest);
      assert InOrder(m) == [m[k]] + InOrder(rest);
    }
  }

  lemma PrependAscending(t: Tx, q: seq<Tx>)
    requires Ascending(q) && forall x :: x in q ==> t.nonce < x.nonce
    ensures Ascending([t] + q)
  {
    assert forall j :: 0 <= j < |q| ==> q[j] in q;
  }

  lemma LeastFirst(m: map<nat, Tx>)
    requires m != map[] && forall k :: k in m ==> m[k].nonce == k
    ensures var k := Least(m.Keys); forall t :: t in InOrder(m - {k}) ==> m[k].nonce < t.nonce
  {
    var k := Least(m.Keys);
    InOrderContents(m - {k});
    assert forall t :: t in InOrder(m - {k}) ==> t.nonce in m.Keys && t.nonce != k;
  }

  lemma {:induction false} InOrderSorted(m: map<nat, Tx>)
    requires forall k :: k in m ==> m[k].nonce == k
    ensures Ascending(InOrder(m))
    decreases |m|
  {
    if m == map[] {
    } else {
      var k := Least(m.Keys);
      InOrderSorted(m - {k});
      LeastFirst(m);
      PrependAscending(m[k], InOrder(m - {k}));
    }
  }

  /** A sender's queue is ascending and holds exactly the last writer of each of its nonces. */
  lemma QueueMeaning(txs: seq<Tx>, s: Address)
    ensures Ascending(Queue(txs, s))
    ensures forall t :: t in Queue(txs, s) <==> t.sender == s && IsLastWriter(txs, t)
  {
    LatestKeys(txs, s);
    InOrderContents(Latest(txs, s));
    InOrderSorted(Latest(txs, s));
    forall t
      ensures t in Queue(txs, s) <==> t.sender == s && IsLastWriter(txs, t)
    {
      LatestMeaning(txs, s, t);
    }
  }

  lemma LastWriterStep(txs: seq<Tx>, i: nat)
    requires i < |txs| - 1
    ensures var n := |txs| - 1; LastWriter(txs, i) <==> LastWriter(txs[..n], i) && KeyOf(txs[n]) != KeyOf(txs[i])
  {
    var init := txs[..|txs| - 1];
    assert forall j :: i < j < |init| ==> init[j] == txs[j];
    if LastWriter(txs, i) {
      assert forall j :: i < j < |init| ==> KeyOf(txs[j]) != KeyOf(init[i]);
    }
  }

  lemma IsLastWriterStep(txs: seq<Tx>, t: Tx)
    requires txs != []
    ensures var n := |txs| - 1;
            IsLastWriter(txs, t) <==> txs[n] == t || (IsLastWriter(txs[..n], t) && KeyOf(txs[n]) != KeyOf(t))
  {
    var n := |txs| - 1;
    var init := txs[..n];
    assert LastWriter(txs, n);
    if IsLastWriter(txs, t) {
      var i :| 0 <= i < |txs| && txs[i] == t && LastWriter(txs, i);
      if i < n {
        LastWriterStep(txs, i);
        assert init[i] == t;
      }
    }
    if IsLastWriter(init, t) && KeyOf(txs[n]) != KeyOf(t) {
      var i :| 0 <= i < n && init[i] == t && LastWriter(init, i);
      LastWriterStep(txs, i);
      assert txs[i] == t;
    }
  }

  lemma {:induction false} LatestMeaning(txs: seq<Tx>, s: Address, t: Tx)
    ensures t.nonce in Latest(txs, s) && Latest(txs, s)[t.nonce] == t <==> t.sender == s && IsLastWriter(txs, t)
  {
    if txs == [] {
    } else {
      var init := txs[..|txs| - 1];
      LatestMeaning(init, s, t);
      IsLastWriterStep(txs, t);
      LatestKeys(init, s);
      OfShape(init, s);
    }
  }

  function Init(q: seq<Tx>): seq<Tx>
    requires q != []
  {
    q[..|q| - 1]
  }

  function Last(q: seq<Tx>): Tx
    requires q != []
  {
    q[|q| - 1]
  }

  lemma InitOfAscending(q: seq<Tx>)
    requires Ascending(q) && q != []
    ensures Ascending(Init(q)) && q == Init(q) + [Last(q)]
    ensures forall t :: t in Init(q) <==> t in q && t != Last(q)
  {
    assert forall i :: 0 <= i < |q| - 1 ==> q[i].nonce < Last(q).nonce;
  }

  lemma LastOfAscending(a: seq<Tx>, b: seq<Tx>)
    requires Ascending(a) && Ascending(b) && a != [] && b != []
    requires forall t :: t in a <==> t in b
    ensures Last(a) == Last(b)
  {
    assert Last(a) in b && Last(b) in a;
    assert Last(a).nonce <= Last(b).nonce && Last(b).nonce <= Last(a).nonce;
  }

  lemma EmptyOrFirst(q: seq<Tx>)
    ensures q == [] || q[0] in q
  {
  }

  /** Two ascending sequences with the same elements are equal. */
  lemma {:induction false} AscendingUnique(a: seq<Tx>, b: seq<Tx>)
    requires Ascending(a) && Ascending(b)
    requires forall t :: t in a <==> t in b
    ensures a == b
  {
    if a == [] {
      EmptyOrFirst(b);
    } else {
      assert a[0] in b;
      LastOfAscending(a, b);
      InitOfAscending(a);
      InitOfAscending(b);
      AscendingUnique(Init(a), Init(b));
    }
  }

  // ----- positions -----

  /** The transaction at position `i` is its sender's transaction number `Rank(i)`. */
  lemma OfAt(txs: seq<Tx>, i: nat)
    requires i < |txs|
    ensures var s := txs[i].sender; Rank(txs, i, s) < |Of(txs, s)| && Of(txs, s)[Rank(txs, i, s)] == txs[i]
  {
    var s := txs[i].sender;
    OfSplit(txs, i + 1, s);
    assert txs[..i + 1][..i] == txs[..i];
  }

  lemma RankMonotone(txs: seq<Tx>, i: nat, j: nat, s: Address)
    requires i <= j <= |txs|
    ensures Rank(txs, i, s) <= Rank(txs, j, s)
  {
    assert txs[..j][..i] == txs[..i];
    OfSplit(txs[..j], i, s);
  }

  lemma AscendingFromProjections(txs: seq<Tx>)
    requires forall s :: Ascending(Of(txs, s))
    ensures AscendingPerSender(txs)
  {
    forall i, j | 0 <= i < j < |txs| && txs[i].sender == txs[j].sender
      ensures txs[i].nonce < txs[j].nonce
    {
      var s := txs[i].sender;
      OfAt(txs, i);
      OfAt(txs, j);
      RankStep(txs, i, s);
      RankMonotone(txs, i + 1, j, s);
    }
  }

  lemma {:induction false} ProjectionsFromAscending(txs: seq<Tx>, s: Address)
    requires AscendingPerSender(txs)
    ensures Ascending(Of(txs, s))
  {
    if txs == [] {
    } else {
      var init, last := txs[..|txs| - 1], txs[|txs| - 1];
      ProjectionsFromAscending(init, s);
      OfShape(init, s);
      forall j | 0 <= j < |Of(init, s)| && last.sender == s
        ensures Of(init, s)[j].nonce < last.nonce
      {
        assert Of(init, s)[j] in init;
      }
    }
  }

  /** A sequence is determined by its senders, position by position, and each sender's transactions. */
  lemma DeterminedBySenders(a: seq<Tx>, b: seq<Tx>)
    requires |a| == |b| && forall i :: 0 <= i < |a| ==> a[i].sender == b[i].sender
    requires forall s :: Of(a, s) == Of(b, s)
    ensures a == b
  {
    hide Of;
    forall i | 0 <= i < |a|
      ensures a[i] == b[i]
    {
      OfAt(a, i);
      OfAt(b, i);
      SameRank(a, b, i, a[i].sender);
    }
  }

  lemma {:induction false} SameRank(a: seq<Tx>, b: seq<Tx>, n: nat, s: Address)
    requires n <= |a| && n <= |b| && forall i :: 0 <= i < n ==> a[i].sender == b[i].sender
    ensures Rank(a, n, s) == Rank(b, n, s)
  {
    if n == 0 {
    } else {
      SameRank(a, b, n - 1, s);
      RankStep(a, n - 1, s);
      RankStep(b, n - 1, s);
    }
  }

  // ----- the re-ordering -----

  lemma SlotProjects(txs: seq<Tx>, n: nat, s: Address)
    requires n < |txs|
    ensures Of(Slot(txs, n), s) == if txs[n].sender == s then Slot(txs, n) else []
  {
    var slot := Slot(txs, n);
    if slot != [] {
      QueueMeaning(txs, txs[n].sender);
      assert slot[0] in Queue(txs, txs[n].sender);
      assert slot[..0] == [];
    }
  }

  lemma RefillStep(txs: seq<Tx>, n: nat, s: Address)
    requires n < |txs|
    ensures Of(Refill(txs, n + 1), s) == Of(Refill(txs, n), s) + if txs[n].sender == s then Slot(txs, n) else []
  {
    OfAppend(Refill(txs, n), Slot(txs, n), s);
    SlotProjects(txs, n, s);
  }

  lemma {:induction false} RefillProjects(txs: seq<Tx>, n: nat, s: Address)
    requires n <= |txs|
    ensures Of(Refill(txs, n), s) == Queue(txs, s)[..Min(Rank(txs, n, s), |Queue(txs, s)|)]
  {
    hide Queue, Latest, InOrder;
    if n == 0 {
    } else {
      var i := n - 1;
      RefillProjects(txs, i, s);
      RefillStep(txs, i, s);
      RankStep(txs, i, s);
      SlotExtends(Queue(txs, s), Rank(txs, i, s), txs[i].sender == s,
                  Of(Refill(txs, i), s), if txs[i].sender == s then Slot(txs, i) else []);
    }
  }

  lemma SlotExtends(q: seq<Tx>, r: nat, own: bool, before: seq<Tx>, slot: seq<Tx>)
    requires before == q[..Min(r, |q|)] && slot == if own && r < |q| then [q[r]] else []
    ensures before + slot == q[..Min(r + if own then 1 else 0, |q|)]
  {
  }

  /** Functional correctness: each sender's part of the output is its queue, all of it and nothing else. */
  lemma ReorderProjects(txs: seq<Tx>, s: Address)
    ensures Of(Reorder(txs), s) == Queue(txs, s)
  {
    RefillProjects(txs, |txs|, s);
    QueueSize(txs, s);
    assert txs[..|txs|] == txs;
  }

  /** The output holds exactly the last writer of every key, by ascending nonce per sender. */
  lemma ReorderContents(txs: seq<Tx>)
    ensures AscendingPerSender(Reorder(txs)) && NoDuplicateKey(Reorder(txs))
    ensures forall t :: t in Reorder(txs) <==> IsLastWriter(txs, t)
  {
    var out := Reorder(txs);
    forall s
      ensures Ascending(Of(out, s))
    {
      ReorderProjects(txs, s);
      QueueMeaning(txs, s);
    }
    AscendingFromProjections(out);
    forall t
      ensures t in out <==> IsLastWriter(txs, t)
    {
      ReorderProjects(txs, t.sender);
      QueueMeaning(txs, t.sender);
      OfShape(out, t.sender);
    }
  }

  lemma {:induction false} LastWriterOf(txs: seq<Tx>, i: nat) returns (j: nat)
    requires i < |txs|
    ensures i <= j < |txs| && KeyOf(txs[j]) == KeyOf(txs[i]) && LastWriter(txs, j)
    decreases |txs| - i
  {
    if LastWriter(txs, i) {
      j := i;
    } else {
      var k :| i < k < |txs| && KeyOf(txs[k]) == KeyOf(txs[i]);
      j := LastWriterOf(txs, k);
    }
  }

  /** Keys in are keys out, each once. */
  lemma ReorderKeys(txs: seq<Tx>)
    ensures Keys(Reorder(txs)) == Keys(txs)
    ensures |Reorder(txs)| == |Keys(txs)|
  {
    ReorderContents(txs);
    var out := Reorder(txs);
    forall k
      ensures k in Keys(out) <==> k in Keys(txs)
    {
      if k in Keys(txs) {
        var i :| 0 <= i < |txs| && KeyOf(txs[i]) == k;
        var j := LastWriterOf(txs, i);
        assert txs[j] in out;
      }
    }
    DistinctKeysSize(out);
  }

  lemma {:induction false} DistinctKeysSize(txs: seq<Tx>)
    requires NoDuplicateKey(txs)
    ensures |Keys(txs)| == |txs|
  {
    if txs == [] {
    } else {
      var init, last := txs[..|txs| - 1], txs[|txs| - 1];
      DistinctKeysSize(init);
      assert txs == init + [last];
      assert Keys(txs) == Keys(init) + {KeyOf(last)};
      assert KeyOf(last) !in Keys(init);
    }
  }

  // ----- positions kept -----

  lemma {:induction false} DistinctNonces(q: seq<Tx>)
    requires Ascending(q)
    ensures |Nonces(q)| == |q|
  {
    if q == [] {
    } else {
      var init, last := q[..|q| - 1], q[|q| - 1];
      DistinctNonces(init);
      assert q == init + [last];
      assert Nonces(q) == Nonces(init) + {last.nonce};
      assert last.nonce !in Nonces(init);
    }
  }

  /** How many of the numbers are smaller than `n`. */
  function CountBelow(ks: set<nat>, n: nat): nat {
    |set k | k in ks && k < n|
  }

  lemma AscendingRank(q: seq<Tx>, r: nat)
    requires Ascending(q) && r < |q|
    ensures CountBelow(Nonces(q), q[r].nonce) == r
  {
    var low := set k | k in Nonces(q) && k < q[r].nonce;
    assert low == Nonces(q[..r]) by {
      forall k | k in low
        ensures k in Nonces(q[..r])
      {
        var i :| 0 <= i < |q| && q[i].nonce == k;
        assert q[i] in q[..r];
      }
      forall k | k in Nonces(q[..r])
        ensures k in low
      {
        var i :| 0 <= i < r && q[..r][i].nonce == k;
        assert q[i] in q;
      }
    }
    DistinctNonces(q[..r]);
  }

  /** A sender's queue has one transaction for each of its distinct nonces. */
  lemma QueueIsDistinctNonces(txs: seq<Tx>, s: Address)
    ensures Nonces(Queue(txs, s)) == Nonces(Of(txs, s)) && |Queue(txs, s)| == |Nonces(Of(txs, s))|
  {
    LatestKeys(txs, s);
    InOrderContents(Latest(txs, s));
    QueueMeaning(txs, s);
    forall k
      ensures k in Nonces(Queue(txs, s)) <==> k in Latest(txs, s)
    {
      if k in Latest(txs, s) {
        assert Latest(txs, s)[k] in Queue(txs, s);
      }
    }
    assert Nonces(Queue(txs, s)) == Latest(txs, s).Keys;
    DistinctNonces(Queue(txs, s));
  }

  /**
   Position by position: occurrence number `r` of a sender becomes its transaction with
   exactly `r` smaller nonces, the last one committed with that nonce, right after what the
   earlier positions became; an occurrence beyond the sender's distinct nonces becomes nothing.
   */
  lemma ReorderAt(txs: seq<Tx>, i: nat)
    requires i < |txs|
    ensures var s, r, at := txs[i].sender, Rank(txs, i, txs[i].sender), |Refill(txs, i)|;
            var nonces := Nonces(Of(txs, s));
            if r < |nonces| then
              at < |Reorder(txs)| && |Refill(txs, i + 1)| == at + 1 &&
              var t := Reorder(txs)[at];
              t.sender == s && CountBelow(nonces, t.nonce) == r && IsLastWriter(txs, t)
            else
              |Refill(txs, i + 1)| == at
  {
    var s, r := txs[i].sender, Rank(txs, i, txs[i].sender);
    var q := Queue(txs, s);
    QueueIsDistinctNonces(txs, s);
    if r < |q| {
      QueueMeaning(txs, s);
      AscendingRank(q, r);
      assert q[r] in q;
      RefillPrefix(txs, i + 1, |txs|);
      assert Refill(txs, i + 1) == Refill(txs, i) + [q[r]];
      assert Reorder(txs)[|Refill(txs, i)|] == q[r];
    }
  }

  // ----- fixpoints and composition -----

  lemma QueueOfAscending(txs: seq<Tx>, s: Address)
    requires AscendingPerSender(txs)
    ensures Queue(txs, s) == Of(txs, s)
  {
    ProjectionsFromAscending(txs, s);
    QueueMeaning(txs, s);
    OfShape(txs, s);
    forall t
      ensures t in Queue(txs, s) <==> t in Of(txs, s)
    {
      if t in Of(txs, s) {
        var i :| 0 <= i < |txs| && txs[i] == t;
        assert LastWriter(txs, i);
      }
    }
    AscendingUnique(Queue(txs, s), Of(txs, s));
  }

  lemma {:induction false} RefillOfAscending(txs: seq<Tx>, n: nat)
    requires n <= |txs| && AscendingPerSender(txs)
    ensures Refill(txs, n) == txs[..n]
  {
    hide Queue, Of;
    if n == 0 {
    } else {
      RefillOfAscending(txs, n - 1);
      QueueOfAscending(txs, txs[n - 1].sender);
      OfAt(txs, n - 1);
      assert Slot(txs, n - 1) == [txs[n - 1]];
    }
  }

  /** A list is left as it is exactly when every sender's nonces already ascend. */
  lemma ReorderFixpoint(txs: seq<Tx>)
    ensures Reorder(txs) == txs <==> AscendingPerSender(txs)
  {
    ReorderContents(txs);
    if AscendingPerSender(txs) {
      RefillOfAscending(txs, |txs|);
    }
  }

  lemma ReorderIdempotent(txs: seq<Tx>)
    ensures Reorder(Reorder(txs)) == Reorder(txs)
  {
    ReorderContents(txs);
    ReorderFixpoint(Reorder(txs));
  }

  lemma {:induction false} LatestAppend(a: seq<Tx>, b: seq<Tx>, s: Address)
    ensures Latest(a + b, s) == Latest(a, s) + Latest(b, s)
  {
    if b == [] {
      assert a + b == a;
    } else {
      LatestAppend(a, b[..|b| - 1], s);
      assert (a + b)[..|a + b| - 1] == a + b[..|b| - 1];
    }
  }

  lemma LatestOfReorder(txs: seq<Tx>, s: Address)
    ensures Latest(Reorder(txs), s) == Latest(txs, s)
  {
    ReorderProjects(txs, s);
    LatestKeys(txs, s);
    LatestKeys(Reorder(txs), s);
    SameQueueSameLatest(Latest(Reorder(txs), s), Latest(txs, s));
  }

  lemma SameQueueSameLatest(m': map<nat, Tx>, m: map<nat, Tx>)
    requires forall k :: k in m ==> m[k].nonce == k
    requires m'.Keys == Nonces(InOrder(m))
    requires forall k :: k in m' ==> m'[k].nonce == k && m'[k] in InOrder(m)
    ensures m' == m
  {
    InOrderContents(m);
    forall k | k in m
      ensures k in m'
    {
      assert m[k] in InOrder(m);
    }
  }

  /** Re-ordering a part first never changes what any one sender's transactions come out as. */
  lemma ReorderComposes(a: seq<Tx>, b: seq<Tx>, s: Address)
    ensures Of(Reorder(Reorder(a) + b), s) == Of(Reorder(a + b), s)
  {
    ReorderProjects(Reorder(a) + b, s);
    ReorderProjects(a + b, s);
    LatestAppend(Reorder(a), b, s);
    LatestAppend(a, b, s);
    LatestOfReorder(a, s);
  }

  lemma {:induction false} NoDuplicateLatest(txs: seq<Tx>, s: Address)
    requires NoDuplicateKey(txs)
    ensures |Latest(txs, s)| == |Of(txs, s)|
  {
    if txs == [] {
    } else {
      var init, last := txs[..|txs| - 1], txs[|txs| - 1];
      NoDuplicateLatest(init, s);
      LatestKeys(init, s);
      OfShape(init, s);
      assert last.sender == s ==> last.nonce !in Latest(init, s);
    }
  }

  lemma NoDuplicateSlot(txs: seq<Tx>, n: nat)
    requires n < |txs| && NoDuplicateKey(txs)
    ensures |Slot(txs, n)| == 1 && Slot(txs, n)[0].sender == txs[n].sender
  {
    hide Of;
    var s := txs[n].sender;
    NoDuplicateLatest(txs, s);
    OfAt(txs, n);
    QueueMeaning(txs, s);
    assert Queue(txs, s)[Rank(txs, n, s)] in Queue(txs, s);
  }

  lemma {:induction false} NoDuplicateKeepsSenders(txs: seq<Tx>, n: nat)
    requires n <= |txs| && NoDuplicateKey(txs)
    ensures |Refill(txs, n)| == n && forall i :: 0 <= i < n ==> Refill(txs, n)[i].sender == txs[i].sender
  {
    hide Slot;
    if n == 0 {
    } else {
      NoDuplicateKeepsSenders(txs, n - 1);
      NoDuplicateSlot(txs, n - 1);
    }
  }

  lemma {:induction false} SameRefill(a: seq<Tx>, b: seq<Tx>, n: nat)
    requires n <= |a| && n <= |b| && forall i :: 0 <= i < n ==> a[i].sender == b[i].sender
    requires forall s :: Queue(a, s) == Queue(b, s)
    ensures Refill(a, n) == Refill(b, n)
  {
    hide Queue, Latest, InOrder, Of;
    if n == 0 {
    } else {
      SameRefill(a, b, n - 1);
      SameRank(a, b, n - 1, a[n - 1].sender);
    }
  }

  /** ... and changes nothing at all when the part has no duplicate key. */
  lemma ReorderComposesExactly(a: seq<Tx>, b: seq<Tx>)
    requires NoDuplicateKey(a)
    ensures Reorder(Reorder(a) + b) == Reorder(a + b)
  {
    NoDuplicateKeepsSenders(a, |a|);
    var x, y := Reorder(a) + b, a + b;
    forall s
      ensures Queue(x, s) == Queue(y, s)
    {
      ReorderComposes(a, b, s);
      ReorderProjects(x, s);
      ReorderProjects(y, s);
    }
    SameRefill(x, y, |x|);
  }

  lemma {:induction false} Bound(ks: set<nat>) returns (m: nat)
    ensures forall k :: k in ks ==> k < m
  {
    m := 0;
    if ks == {} {
    } else {
      var x :| x in ks;
      var n := Bound(ks - {x});
      m := if x < n then n else x + 1;
      assert forall k :: k in ks ==> k == x || k in ks - {x};
    }
  }

  /** A sender with a duplicate key has more positions than nonces. */
  lemma DuplicateIsSurplus(txs: seq<Tx>, i: nat, j: nat)
    requires i < j < |txs| && KeyOf(txs[i]) == KeyOf(txs[j])
    ensures |Queue(txs, txs[i].sender)| < |Of(txs, txs[i].sender)|
  {
    var s := txs[i].sender;
    QueueMeaning(txs, s);
    QueueIsDistinctNonces(txs, s);
    QueueSize(txs, s);
    if |Queue(txs, s)| == |Of(txs, s)| {
      OfAt(txs, i);
      OfAt(txs, j);
      RankStep(txs, i, s);
      RankMonotone(txs, i + 1, j, s);
      RepeatedNonces(Of(txs, s), Rank(txs, i, s), Rank(txs, j, s));
    }
  }

  lemma RepeatedNonces(q: seq<Tx>, i: nat, j: nat)
    requires i < j < |q| && q[i].nonce == q[j].nonce
    ensures |Nonces(q)| < |q|
  {
    var rest := q[..j] + q[j + 1..];
    forall t | t in q
      ensures t.nonce in Nonces(rest)
    {
      var l :| 0 <= l < |q| && q[l] == t;
      var at := if l == j then i else if l < j then l else l - 1;
      assert rest[at] in rest && rest[at].nonce == t.nonce;
    }
    SubsetSize(Nonces(q), Nonces(rest));
    NoncesSize(rest);
  }

  lemma {:induction false} NoncesSize(q: seq<Tx>)
    ensures |Nonces(q)| <= |q|
  {
    if q == [] {
    } else {
      NoncesSize(Init(q));
      assert q == Init(q) + [Last(q)];
      assert Nonces(q) == Nonces(Init(q)) + {Last(q).nonce};
    }
  }

  /** A later transaction with a new nonce makes its sender's queue one longer. */
  lemma QueueGrows(txs: seq<Tx>, t: Tx)
    requires t.nonce !in Nonces(Of(txs, t.sender))
    ensures |Queue(txs + [t], t.sender)| == |Queue(txs, t.sender)| + 1
  {
    var all := txs + [t];
    assert all[..|all| - 1] == txs;
    LatestKeys(txs, t.sender);
  }

  /** Appending a transaction of another sender leaves a queue as it is. */
  lemma QueueOther(txs: seq<Tx>, t: Tx, s: Address)
    requires t.sender != s
    ensures Queue(txs + [t], s) == Queue(txs, s) && Of(txs + [t], s) == Of(txs, s)
  {
    var all := txs + [t];
    assert all[..|all| - 1] == txs;
  }

  /**
   After `txs`, a newcomer `u` and a new nonce `t` of `s`: if `s` had no surplus position, the
   output ends with `s`; if it had one, the new nonce moves there and the output ends with `u`.
   */
  lemma LastSender(txs: seq<Tx>, u: Tx, t: Tx)
    requires u.sender != t.sender && Of(txs, u.sender) == [] && t.nonce !in Nonces(Of(txs, t.sender))
    ensures var out := Reorder(txs + [u] + [t]);
            out != [] && (Last(out).sender == t.sender <==> |Of(txs, t.sender)| == |Queue(txs, t.sender)|)
  {
    hide Queue, Of, Refill;
    var s, n := t.sender, |txs|;
    var w := txs + [u] + [t];
    QueueOther(txs, u, s);
    QueueGrows(txs + [u], t);
    QueueSize(txs, s);
    assert w[..n + 1] == txs + [u] && w[..n] == txs;
    QueueMeaning(w, s);
    if |Of(txs, s)| == |Queue(txs, s)| {
      RefillSnoc(w, n + 1);
      assert Queue(w, s)[Rank(w, n + 1, s)] in Queue(w, s);
    } else {
      RefillSnoc(w, n + 1);
      RefillSnoc(w, n);
      NewcomerQueue(w, n);
      QueueMeaning(w, u.sender);
      assert Queue(w, u.sender)[0] in Queue(w, u.sender);
    }
  }

  lemma RefillSnoc(txs: seq<Tx>, n: nat)
    requires n < |txs|
    ensures Refill(txs, n + 1) == Refill(txs, n) + Slot(txs, n)
  {
  }

  lemma NewcomerQueue(txs: seq<Tx>, n: nat)
    requires n < |txs|
    ensures Queue(txs, txs[n].sender) != []
  {
    OfShape(txs, txs[n].sender);
    QueueSize(txs, txs[n].sender);
    assert txs[n] in Of(txs, txs[n].sender);
  }

  /**
   Re-ordering a part first is harmless whatever follows exactly when the part has no
   duplicate key: otherwise its surplus position is lost before a later nonce can use it.
   */
  lemma ReorderComposesIff(a: seq<Tx>)
    ensures (forall b :: Reorder(Reorder(a) + b) == Reorder(a + b)) <==> NoDuplicateKey(a)
  {
    if NoDuplicateKey(a) {
      forall b
        ensures Reorder(Reorder(a) + b) == Reorder(a + b)
      {
        ReorderComposesExactly(a, b);
      }
    } else {
      var i, j :| 0 <= i < j < |a| && KeyOf(a[i]) == KeyOf(a[j]);
      var b := SurplusShows(a, i, j);
      assert Reorder(Reorder(a) + b) != Reorder(a + b);
    }
  }

  lemma SurplusShows(a: seq<Tx>, i: nat, j: nat) returns (b: seq<Tx>)
    requires i < j < |a| && KeyOf(a[i]) == KeyOf(a[j])
    ensures Reorder(Reorder(a) + b) != Reorder(a + b)
  {
    hide Queue, Of, Refill, Reorder;
    var s, once := a[i].sender, Reorder(a);
    var senders := set x | x in a :: x.sender;
    var sender := Bound(senders);
    assert forall x :: x in a ==> x.sender in senders;
    var nonce := Bound(Nonces(Of(a, s)));
    var u, t := Tx(sender, 0, 0, 0, None), Tx(s, nonce, 0, 0, None);
    b := [u] + [t];
    OfShape(a, sender);
    ReorderProjects(a, s);
    ReorderProjects(a, sender);
    QueueSize(a, sender);
    QueueIsDistinctNonces(a, s);
    ReorderProjects(once, s);
    ReorderIdempotent(a);
    assert a[i] in a && sender != s;
    assert Of(a, sender) == [] by {
      assert forall x :: x in Of(a, sender) ==> x.sender < sender;
      EmptyOrFirst(Of(a, sender));
    }
    DuplicateIsSurplus(a, i, j);
    LastSender(a, u, t);
    LastSender(once, u, t);
    assert a + b == a + [u] + [t] && once + b == once + [u] + [t];
  }

  lemma {:induction false} RefillPrefix(txs: seq<Tx>, i: nat, n: nat)
    requires i <= n <= |txs|
    ensures Refill(txs, i) <= Refill(txs, n)
  {
    hide Slot;
    if i == n {
    } else {
      RefillPrefix(txs, i, n - 1);
    }
  }
}
