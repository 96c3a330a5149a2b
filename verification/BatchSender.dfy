/** The batch sender of the integration tests: the split of the accounts among workers, and each worker's accounting. */
module BatchSender {
  import opened Sequences
  import opened Types
  import opened Ordering

  // ----- the split -----

  datatype Range = Range(start: nat, end: nat)

  /** The ranges follow one another without a gap from 0 to `n`, and none is empty. */
  ghost predicate Partitions(ranges: seq<Range>, n: nat) {
    && (forall i :: 0 <= i < |ranges| ==> ranges[i].start < ranges[i].end)
    && (forall i :: 0 < i < |ranges| ==> ranges[i].start == ranges[i - 1].end)
    && (if ranges == [] then n == 0 else ranges[0].start == 0 && ranges[|ranges| - 1].end == n)
  }

  lemma CeilingCovers(n: nat, w: nat)
    requires w > 0
    ensures var chunk := (n + w - 1) / w; w * (chunk - 1) < n <= w * chunk && (n > 0 ==> chunk > 0)
  {
    var m := n + w - 1;
    assert m == w * (m / w) + m % w;
    Distribute(w, m / w, 1);
  }

  /** All ranges hold `chunk` accounts, but the last one may hold fewer. */
  ghost predicate Sized(ranges: seq<Range>, chunk: nat) {
    forall i :: 0 <= i < |ranges| ==>
                  if i < |ranges| - 1 then ranges[i].end == ranges[i].start + chunk
                  else ranges[i].end <= ranges[i].start + chunk
  }

  /** `chunk` is the least size with which 32 workers, or one for each account if there are fewer, cover the accounts. */
  ghost predicate LeastChunk(n: nat, chunk: nat) {
    var workers := if n < 32 then n else 32;
    workers * (chunk - 1) < n <= workers * chunk
  }

  method WorkerRanges(n: nat) returns (ranges: seq<Range>, ghost chunk: nat)
    requires n >= 1
    ensures Partitions(ranges, n) && |ranges| <= 32
    ensures Sized(ranges, chunk) && LeastChunk(n, chunk)
  {
    hide Partitions, Sized, LeastChunk;
    var workers := Min(32, n);
    var size := (n + workers - 1) / workers;
    CeilingCovers(n, workers);
    assert LeastChunk(n, size) by { ChunkIsLeast(n, size); }
    chunk := size;
    ranges := [];
    NoRanges();
    var id := 0;
    while id < workers
      invariant id <= workers && |ranges| == id
      invariant Partitions(ranges, Min(id * size, n))
      invariant forall i :: 0 <= i < id ==> ranges[i].end == Min(ranges[i].start + size, n)
      decreases workers - id
    {
      var start := id * size;
      if start >= n {
        break;
      }
      var end := Min(start + size, n);
      NextRange(ranges, start, end);
      NextStart(id, size);
      assert Min((id + 1) * size, n) == end;
      ranges := ranges + [Range(start, end)];
      id := id + 1;
    }
    ChunksSized(ranges, chunk, n);
  }

  lemma NoRanges()
    ensures Partitions([], 0)
  {
  }

  lemma ChunkIsLeast(n: nat, chunk: nat)
    requires var workers := if n < 32 then n else 32; workers * (chunk - 1) < n <= workers * chunk
    ensures LeastChunk(n, chunk)
  {
  }

  lemma ChunksSized(ranges: seq<Range>, chunk: nat, n: nat)
    requires Partitions(ranges, n) && forall i :: 0 <= i < |ranges| ==> ranges[i].end == Min(ranges[i].start + chunk, n)
    ensures Sized(ranges, chunk)
  {
    forall i | 0 <= i < |ranges| - 1
      ensures ranges[i].end == ranges[i].start + chunk
    {
      RangesEndBefore(ranges, n);
      assert ranges[i].end <= ranges[|ranges| - 1].start < n;
    }
  }

  lemma NextStart(id: nat, chunk: nat)
    ensures (id + 1) * chunk == id * chunk + chunk
  {
  }

  lemma NextRange(ranges: seq<Range>, start: nat, end: nat)
    requires Partitions(ranges, start) && start < end
    ensures Partitions(ranges + [Range(start, end)], end)
  {
  }

  /** Every account belongs to exactly one range. */
  lemma {:induction false} OneRangeEach(ranges: seq<Range>, n: nat, x: nat) returns (i: nat)
    requires Partitions(ranges, n) && x < n
    ensures i < |ranges| && forall j :: 0 <= j < |ranges| ==> (ranges[j].start <= x < ranges[j].end <==> j == i)
  {
    var last := |ranges| - 1;
    var init := ranges[..last];
    if x < ranges[last].start {
      assert last > 0;
      i := OneRangeEach(init, ranges[last].start, x);
      assert forall j :: 0 <= j < last ==> init[j] == ranges[j];
    } else {
      i := last;
      RangesEndBefore(ranges, n);
    }
  }

  lemma {:induction false} RangesEndBefore(ranges: seq<Range>, n: nat)
    requires Partitions(ranges, n)
    ensures forall i, j :: 0 <= i < j < |ranges| ==> ranges[i].end <= ranges[j].start
  {
    if |ranges| <= 1 {
    } else {
      var last := |ranges| - 1;
      RangesEndBefore(ranges[..last], ranges[last].start);
      assert forall i, j :: 0 <= i < j < last ==> ranges[..last][i].end <= ranges[..last][j].start;
      assert ranges[last - 1].start < ranges[last - 1].end;
    }
  }

  // ----- one worker -----

  type Raw = nat

  datatype SendResult = Sent | ConnectionError | OtherError

  /**
   The accounts, the random source, signing, and the endpoints. `draw` takes an attempt and
   the number of the draw in it; the first argument of `create` and `send` numbers the attempts.
   */
  datatype Env = Env(
    accounts: nat,
    address: nat -> Address,
    draw: (nat, nat) -> nat,
    create: (nat, nat, nat, nat) -> Option<Raw>,
    clients: nat,
    send: (nat, nat, seq<Raw>) -> SendResult)

  // ----- the recipient -----

  /** Draw number `j` is the first one that is not the sender. */
  ghost predicate DrawnAt(env: Env, attempt: nat, sender: nat, j: nat) {
    env.draw(attempt, j) != sender && forall i: nat :: i < j ==> env.draw(attempt, i) == sender
  }

  /** The draws of an attempt do not all give the sender. */
  ghost predicate Ends(env: Env, attempt: nat, sender: nat) {
    exists j: nat :: env.draw(attempt, j) != sender
  }

  ghost predicate DrawsAccounts(env: Env) {
    forall attempt: nat, j: nat :: env.draw(attempt, j) < env.accounts
  }

  /** Accounts are drawn, and no attempt draws its sender for ever. */
  ghost predicate Settles(env: Env) {
    DrawsAccounts(env) && forall attempt: nat, sender: nat :: sender < env.accounts ==> Ends(env, attempt, sender)
  }

  lemma {:induction false} SomeDrawnAt(env: Env, attempt: nat, sender: nat, j: nat) returns (first: nat)
    requires env.draw(attempt, j) != sender
    ensures first <= j && DrawnAt(env, attempt, sender, first)
  {
    first := j;
    if i: nat :| i < j && env.draw(attempt, i) != sender {
      first := SomeDrawnAt(env, attempt, sender, i);
    }
  }

  /** The recipient of an attempt: the first account drawn that is not the sender. */
  ghost function Recipient(env: Env, attempt: nat, sender: nat): (r: nat)
    requires Ends(env, attempt, sender)
    ensures r != sender && exists j: nat :: DrawnAt(env, attempt, sender, j) && r == env.draw(attempt, j)
  {
    assert exists j: nat :: DrawnAt(env, attempt, sender, j) by {
      var k: nat :| env.draw(attempt, k) != sender;
      var first := SomeDrawnAt(env, attempt, sender, k);
    }
    var j: nat :| DrawnAt(env, attempt, sender, j);
    env.draw(attempt, j)
  }

  lemma RecipientDrawn(env: Env, attempt: nat, sender: nat) returns (j: nat)
    requires Ends(env, attempt, sender)
    ensures DrawnAt(env, attempt, sender, j) && Recipient(env, attempt, sender) == env.draw(attempt, j)
  {
    hide DrawnAt, Ends;
    ghost var r := Recipient(env, attempt, sender);
    j :| DrawnAt(env, attempt, sender, j) && r == env.draw(attempt, j);
  }

  /** Draws until the account drawn is not the sender. */
  method DrawRecipient(env: Env, attempt: nat, sender: nat) returns (r: nat)
    requires Ends(env, attempt, sender)
    ensures r == Recipient(env, attempt, sender)
  {
    hide Recipient, Ends;
    ghost var last := RecipientDrawn(env, attempt, sender);
    var j: nat := 0;
    r := env.draw(attempt, 0);
    while r == sender
      invariant j <= last && r == env.draw(attempt, j)
      invariant forall i: nat :: i < j ==> env.draw(attempt, i) == sender
      decreases last - j
    {
      j := j + 1;
      r := env.draw(attempt, j);
    }
  }

  /** With a single account the draw never ends. */
  lemma LoneAccountNeverEnds(env: Env, attempt: nat)
    requires DrawsAccounts(env) && env.accounts == 1
    ensures !Ends(env, attempt, 0)
  {
  }

  function TwoDraws(accounts: nat): Env {
    Env(accounts, i => i, (attempt: nat, j: nat) => if j == 0 then 0 else 1,
        (attempt, from, to, nonce) => None, 1, (call, p, txs) => Sent)
  }

  /** A random source that lets every draw end exists exactly for two accounts or more. */
  lemma DrawsEndExactly(accounts: nat)
    requires accounts >= 1
    ensures (exists env: Env :: env.accounts == accounts && Settles(env)) <==> accounts >= 2
  {
    if accounts >= 2 {
      var env := TwoDraws(accounts);
      forall attempt: nat, sender: nat | sender < accounts
        ensures Ends(env, attempt, sender)
      {
        assert env.draw(attempt, if sender == 0 then 1 else 0) != sender;
      }
      assert Settles(env);
    } else {
      forall env: Env | env.accounts == accounts && DrawsAccounts(env)
        ensures !Settles(env)
      {
        LoneAccountNeverEnds(env, 0);
      }
    }
  }

  // ----- creating the transactions -----

  datatype Queued = Queued(raw: Raw, provider: nat)

  /** A transfer between two different accounts, signed with the sender's address and nonce. */
  datatype Created = Created(from: nat, to: nat, sender: Address, nonce: nat, queued: Queued)

  function NonceIn(nonces: map<Address, nat>, a: Address): nat {
    if a in nonces then nonces[a] else 0
  }

  /** The nonces to use next, what has been created and how many creations have failed. */
  datatype Plan = Plan(nonces: map<Address, nat>, created: seq<Created>, failed: nat)

  ghost function Attempted(env: Env, attempt: nat, from: nat, p: Plan): Plan
    requires env.clients > 0 && Ends(env, attempt, from)
  {
    var a, to := env.address(from), Recipient(env, attempt, from);
    var n := NonceIn(p.nonces, a);
    match env.create(attempt, from, to, n)
    case None => p.(failed := p.failed + 1)
    case Some(raw) =>
      Plan(p.nonces[a := n + 1], p.created + [Created(from, to, a, n, Queued(raw, attempt % env.clients))], p.failed)
  }

  /** What `count` attempts need: a provider, and if there are any, accounts whose draws end. */
  ghost predicate Ready(env: Env, start: nat, width: nat, count: nat) {
    env.clients > 0 && (count > 0 ==> width > 0 && start + width <= env.accounts && Settles(env))
  }

  /** The first `count` attempts: the `width` accounts from `start` on take turns, and so do the providers. */
  ghost function Attempts(env: Env, start: nat, width: nat, first: map<Address, nat>, count: nat): Plan
    requires Ready(env, start, width, count)
  {
    if count == 0 then Plan(first, [], 0) else
      Attempted(env, count - 1, start + (count - 1) % width, Attempts(env, start, width, first, count - 1))
  }

  function NoncesOf(created: seq<Created>, a: Address): seq<nat> {
    if created == [] then [] else
      var last := created[|created| - 1];
      NoncesOf(created[..|created| - 1], a) + if last.sender == a then [last.nonce] else []
  }

  /** The created transactions of `a` carry its nonces one by one from `first` on. */
  ghost predicate Consecutive(created: seq<Created>, a: Address, first: nat) {
    forall i :: 0 <= i < |NoncesOf(created, a)| ==> NoncesOf(created, a)[i] == first + i
  }

  /** Every attempt is a transfer to another account or a failure, and each address uses its nonces one by one. */
  lemma {:induction false} AttemptsConsecutive(
    env: Env, start: nat, width: nat, first: map<Address, nat>, count: nat, a: Address)
    requires Ready(env, start, width, count)
    ensures var p := Attempts(env, start, width, first, count);
            && |p.created| + p.failed == count
            && Consecutive(p.created, a, if a in first then first[a] else 0)
            && NonceIn(p.nonces, a) == NonceIn(first, a) + |NoncesOf(p.created, a)|
            && forall c :: c in p.created ==> Proper(env, c)
  {
    hide NoncesOf, Settles, Recipient, Attempted, Consecutive, Proper;
    if count == 0 {
      NoneConsecutive(a, NonceIn(first, a));
    } else {
      AttemptsConsecutive(env, start, width, first, count - 1, a);
      var p := Attempts(env, start, width, first, count - 1);
      var sender := start + (count - 1) % width;
      AttemptedConsecutive(env, count - 1, sender, p, a, NonceIn(first, a));
    }
  }

  /** `c` goes to another account, by an existing provider. */
  ghost predicate Proper(env: Env, c: Created) {
    c.from != c.to && c.from < env.accounts && c.to < env.accounts && c.sender == env.address(c.from) &&
    c.queued.provider < env.clients
  }

  lemma NoneConsecutive(a: Address, first: nat)
    ensures NoncesOf([], a) == [] && Consecutive([], a, first)
  {
  }

  lemma NoncesSnoc(created: seq<Created>, last: Created, a: Address)
    ensures NoncesOf(created + [last], a) == NoncesOf(created, a) + if last.sender == a then [last.nonce] else []
  {
    assert (created + [last])[..|created + [last]| - 1] == created;
  }

  lemma AttemptedConsecutive(env: Env, attempt: nat, from: nat, p: Plan, a: Address, first: nat)
    requires env.clients > 0 && Settles(env) && from < env.accounts
    requires Consecutive(p.created, a, first) && NonceIn(p.nonces, a) == first + |NoncesOf(p.created, a)|
    ensures var q := Attempted(env, attempt, from, p);
            && |q.created| + q.failed == |p.created| + p.failed + 1
            && Consecutive(q.created, a, first)
            && NonceIn(q.nonces, a) == first + |NoncesOf(q.created, a)|
            && forall c :: c in q.created ==> c in p.created || Proper(env, c)
  {
    hide NoncesOf;
    var q := Attempted(env, attempt, from, p);
    if q.created != p.created {
      NoncesSnoc(p.created, q.created[|p.created|], a);
    }
  }

  /** The first `m` of the numbers are below `n`, the others above. */
  ghost predicate SplitAt(at: seq<nat>, m: nat, n: nat) {
    m <= |at| && forall i :: 0 <= i < |at| ==> if i < m then at[i] < n else n < at[i]
  }

  /** `c` was created by attempt `n`: by the account and the provider whose turn it was, for the recipient drawn. */
  ghost predicate MadeAt(env: Env, start: nat, width: nat, c: Created, n: nat) {
    && width > 0 && env.clients > 0
    && c.from == start + n % width && c.queued.provider == n % env.clients && c.sender == env.address(c.from)
    && (exists j: nat :: DrawnAt(env, n, c.from, j) && c.to == env.draw(n, j))
    && env.create(n, c.from, c.to, c.nonce) == Some(c.queued.raw)
  }

  /** Attempt `n`, which came after `m` created transactions, failed with the nonce it had to use. */
  ghost predicate FailedAt(env: Env, start: nat, width: nat, first: map<Address, nat>, created: seq<Created>, m: nat, n: nat) {
    && width > 0 && m <= |created|
    && var from := start + n % width;
       var a := env.address(from);
       exists j: nat ::
         DrawnAt(env, n, from, j) &&
         env.create(n, from, env.draw(n, j), NonceIn(first, a) + |NoncesOf(created[..m], a)|) == None
  }

  /** Attempts `at` created the transactions, in this order, and the other ones below `count` failed. */
  ghost predicate Explained(
    env: Env, start: nat, width: nat, first: map<Address, nat>, created: seq<Created>, count: nat, at: seq<nat>)
  {
    && |at| == |created|
    && (forall i, j :: 0 <= i < j < |at| ==> at[i] < at[j])
    && (forall i :: 0 <= i < |at| ==> at[i] < count && MadeAt(env, start, width, created[i], at[i]))
    && forall n: nat :: n < count && n !in at ==>
                          exists m :: SplitAt(at, m, n) && FailedAt(env, start, width, first, created, m, n)
  }

  lemma {:induction false} AttemptsExactly(env: Env, start: nat, width: nat, first: map<Address, nat>, count: nat)
    returns (at: seq<nat>)
    requires Ready(env, start, width, count)
    ensures Explained(env, start, width, first, Attempts(env, start, width, first, count).created, count, at)
  {
    hide Explained, Settles, Recipient, Attempted, Proper, NoncesOf, Consecutive, Ends;
    if count == 0 {
      at := [];
      assert Explained(env, start, width, first, [], 0, []) by { NothingExplained(env, start, width, first); }
    } else {
      var n := count - 1;
      at := AttemptsExactly(env, start, width, first, n);
      var p := Attempts(env, start, width, first, n);
      var from := start + n % width;
      var a := env.address(from);
      AttemptsConsecutive(env, start, width, first, n, a);
      EachEnds(env, n, from);
      at := ExplainAttempt(env, start, width, first, p, n, at);
    }
  }

  lemma NothingExplained(env: Env, start: nat, width: nat, first: map<Address, nat>)
    ensures Explained(env, start, width, first, [], 0, [])
  {
  }

  lemma ExplainAttempt(
    env: Env, start: nat, width: nat, first: map<Address, nat>, p: Plan, n: nat, at: seq<nat>) returns (now: seq<nat>)
    requires width > 0 && env.clients > 0 && Explained(env, start, width, first, p.created, n, at)
    requires Ends(env, n, start + n % width)
    requires var a := env.address(start + n % width); NonceIn(p.nonces, a) == NonceIn(first, a) + |NoncesOf(p.created, a)|
    ensures Explained(env, start, width, first, Attempted(env, n, start + n % width, p).created, n + 1, now)
  {
    hide Recipient, Ends, DrawnAt, NoncesOf, Explained;
    var from := start + n % width;
    var q := Attempted(env, n, from, p);
    var j := RecipientDrawn(env, n, from);
    if q.created == p.created {
      assert p.created[..|p.created|] == p.created;
      ExplainFailed(env, start, width, first, p.created, n, at);
      now := at;
    } else {
      var c := q.created[|p.created|];
      assert MadeAt(env, start, width, c, n);
      ExplainMade(env, start, width, first, p.created, n, at, c);
      now := at + [n];
    }
  }

  lemma ExplainFailed(
    env: Env, start: nat, width: nat, first: map<Address, nat>, created: seq<Created>, n: nat, at: seq<nat>)
    requires Explained(env, start, width, first, created, n, at)
    requires FailedAt(env, start, width, first, created, |created|, n)
    ensures Explained(env, start, width, first, created, n + 1, at)
  {
    hide FailedAt, MadeAt;
    assert SplitAt(at, |at|, n);
  }

  lemma ExplainMade(
    env: Env, start: nat, width: nat, first: map<Address, nat>, created: seq<Created>, n: nat, at: seq<nat>, c: Created)
    requires Explained(env, start, width, first, created, n, at) && MadeAt(env, start, width, c, n)
    ensures Explained(env, start, width, first, created + [c], n + 1, at + [n])
  {
    hide MadeAt, FailedAt, SplitAt;
    forall i: nat | i < n + 1 && i !in at + [n]
      ensures exists m :: SplitAt(at + [n], m, i) && FailedAt(env, start, width, first, created + [c], m, i)
    {
      assert i != n by { assert (at + [n])[|at|] == n; }
      assert i !in at;
      var m :| SplitAt(at, m, i) && FailedAt(env, start, width, first, created, m, i);
      StillSplit(at, m, i, n);
      StillFailed(env, start, width, first, created, m, i, c);
    }
  }

  lemma StillSplit(at: seq<nat>, m: nat, i: nat, n: nat)
    requires SplitAt(at, m, i) && i < n
    ensures SplitAt(at + [n], m, i)
  {
  }

  lemma StillFailed(
    env: Env, start: nat, width: nat, first: map<Address, nat>, created: seq<Created>, m: nat, n: nat, c: Created)
    requires FailedAt(env, start, width, first, created, m, n)
    ensures FailedAt(env, start, width, first, created + [c], m, n)
  {
    hide DrawnAt, NoncesOf;
    assert (created + [c])[..m] == created[..m];
  }

  function QueuedOf(created: seq<Created>): seq<Queued> {
    seq(|created|, i requires 0 <= i < |created| => created[i].queued)
  }

  function QueuedRaws(batch: seq<Queued>): seq<Raw> {
    seq(|batch|, i requires 0 <= i < |batch| => batch[i].raw)
  }

  /** Full batches, and a current one that is not full yet, hold what was created, in order. */
  ghost predicate Filling(batches: seq<seq<Queued>>, current: seq<Queued>, created: seq<Created>, full: nat) {
    && Concat(batches) + current == QueuedOf(created)
    && (forall b :: b in batches ==> |b| == full)
    && |current| < full
  }

  /** The batches hold what was created, in order; all but the last are full, and none is empty. */
  ghost predicate Cut(batches: seq<seq<Queued>>, created: seq<Created>, full: nat) {
    && Concat(batches) == QueuedOf(created)
    && forall i :: 0 <= i < |batches| ==> 0 < |batches[i]| <= full && (i < |batches| - 1 ==> |batches[i]| == full)
  }

  lemma Fill(batches: seq<seq<Queued>>, current: seq<Queued>, created: seq<Created>, full: nat, c: Created)
    requires Filling(batches, current, created, full)
    ensures var now := current + [c.queued];
            if |now| >= full then Filling(batches + [now], [], created + [c], full)
            else Filling(batches, now, created + [c], full)
  {
    var now := current + [c.queued];
    assert QueuedOf(created + [c]) == QueuedOf(created) + [c.queued];
    ConcatSnoc(batches, now);
    assert forall b :: b in batches + [now] <==> b in batches || b == now;
    assert Concat(batches + [now]) + [] == Concat(batches) + current + [c.queued];
  }

  lemma FillStart(full: nat)
    requires full > 0
    ensures Filling([], [], [], full)
  {
  }

  lemma FillEnd(batches: seq<seq<Queued>>, current: seq<Queued>, created: seq<Created>, full: nat)
    requires Filling(batches, current, created, full)
    ensures Cut(if current == [] then batches else batches + [current], created, full)
  {
    ConcatSnoc(batches, current);
    assert forall i :: 0 <= i < |batches| ==> batches[i] in batches;
  }

  lemma Multiple(w: nat, d: int)
    ensures d >= 1 ==> w * d >= w
    ensures d <= -1 ==> w * d + w <= 0
  {
  }

  /** Attempt number `width * round + turn` is the turn of account `turn`. */
  lemma Turn(width: nat, round: nat, turn: nat)
    requires turn < width
    ensures (width * round + turn) % width == turn
  {
    var x := width * round + turn;
    var q, r := x / width, x % width;
    assert x == width * q + r && 0 <= r < width;
    Distribute(width, round, q);
    Multiple(width, round - q);
  }

  lemma Distribute(w: nat, a: int, b: int)
    ensures w * (a - b) == w * a - w * b
  {
  }

  lemma NextRound(width: nat, round: nat)
    ensures width * round + width == width * (round + 1)
  {
  }

  /** Pre-creates all transactions of the accounts `start..end`, round by round, and cuts them into batches. */
  method CreateTransactions(env: Env, start: nat, end: nat, perSender: nat, batchSize: nat, first: map<Address, nat>)
    returns (batches: seq<seq<Queued>>, failed: nat)
    requires start < end && Ready(env, start, end - start, (end - start) * perSender)
    ensures var p := Attempts(env, start, end - start, first, (end - start) * perSender);
            failed == p.failed && Cut(batches, p.created, if batchSize == 0 then 1 else batchSize)
  {
    hide Filling, Cut, Attempts, Settles, Recipient, Ready, Ends;
    var nonces: map<Address, nat>, current: seq<Queued> := first, [];
    batches, failed := [], 0;
    ghost var created: seq<Created>, width, full := [], end - start, if batchSize == 0 then 1 else batchSize;
    FillStart(full);
    NoAttempts(env, start, width, first, width * perSender);
    var index: nat := 0;
    for round := 0 to perSender
      invariant index == width * round && Ready(env, start, width, index)
      invariant Filling(batches, current, created, full)
      invariant Plan(nonces, created, failed) == Attempts(env, start, width, first, index)
    {
      StaysReady(env, start, width, perSender);
      for sender := start to end
        invariant index == width * round + (sender - start) && Ready(env, start, width, index)
        invariant Filling(batches, current, created, full)
        invariant Plan(nonces, created, failed) == Attempts(env, start, width, first, index)
      {
        Turn(width, round, sender - start);
        OneAttempt(env, start, width, first, index, sender, Plan(nonces, created, failed));
        var recipient := DrawRecipient(env, index, sender);
        var provider := index % env.clients;
        index := index + 1;
        var a := env.address(sender);
        var nonce := NonceIn(nonces, a);
        var raw := env.create(index - 1, sender, recipient, nonce);
        if raw == None {
          failed := failed + 1;
        } else {
          ghost var c := Created(sender, recipient, a, nonce, Queued(raw.value, provider));
          Fill(batches, current, created, full, c);
          current := current + [Queued(raw.value, provider)];
          nonces := nonces[a := nonce + 1];
          created := created + [c];
          if |current| >= batchSize {
            batches := batches + [current];
            current := [];
          }
        }
      }
      NextRound(width, round);
    }
    FillEnd(batches, current, created, full);
    if current != [] {
      batches := batches + [current];
      current := [];
    }
  }

  lemma StaysReady(env: Env, start: nat, width: nat, perSender: nat)
    requires width > 0 && perSender > 0 && Ready(env, start, width, width * perSender)
    ensures forall count: nat :: Ready(env, start, width, count)
  {
    assert width * perSender > 0;
  }

  lemma NoAttempts(env: Env, start: nat, width: nat, first: map<Address, nat>, count: nat)
    requires Ready(env, start, width, count)
    ensures env.clients > 0 && Ready(env, start, width, 0)
    ensures Attempts(env, start, width, first, 0) == Plan(first, [], 0)
  {
  }

  /** What attempt number `count`, the turn of `from`, adds to the plan `p` so far. */
  lemma OneAttempt(env: Env, start: nat, width: nat, first: map<Address, nat>, count: nat, from: nat, p: Plan)
    requires Ready(env, start, width, count) && Ready(env, start, width, count + 1)
    requires from == start + count % width && p == Attempts(env, start, width, first, count)
    ensures Ends(env, count, from)
    ensures var a, to := env.address(from), Recipient(env, count, from);
            var n := NonceIn(p.nonces, a);
            Attempts(env, start, width, first, count + 1) ==
            match env.create(count, from, to, n)
            case None => p.(failed := p.failed + 1)
            case Some(raw) =>
              Plan(p.nonces[a := n + 1], p.created + [Created(from, to, a, n, Queued(raw, count % env.clients))], p.failed)
  {
    hide Recipient, Settles, Ends, DrawnAt;
    assert (count + 1) - 1 == count;
    EachEnds(env, count, from);
  }

  lemma EachEnds(env: Env, attempt: nat, sender: nat)
    requires Settles(env) && sender < env.accounts
    ensures Ends(env, attempt, sender)
  {
  }

  /** The transactions of `batch` for provider `p`, in order. */
  function For(batch: seq<Queued>, p: nat): seq<Raw> {
    if batch == [] then [] else
      var last := batch[|batch| - 1];
      For(batch[..|batch| - 1], p) + if last.provider == p then [last.raw] else []
  }

  /** Exactly the transactions of `p`, in the order of the batch. */
  lemma {:induction false} ForExactly(batch: seq<Queued>, p: nat) returns (at: seq<nat>)
    ensures |For(batch, p)| == |at| <= |batch|
    ensures forall i, j :: 0 <= i < j < |at| ==> at[i] < at[j]
    ensures forall i :: 0 <= i < |at| ==> at[i] < |batch| && For(batch, p)[i] == batch[at[i]].raw
    ensures forall n: nat :: n in at <==> n < |batch| && batch[n].provider == p
  {
    hide For;
    if batch == [] {
      at := [];
      assert For(batch, p) == [] by { ForNothing(p); }
    } else {
      var last := |batch| - 1;
      at := ForExactly(batch[..last], p);
      QueuedSnoc(batch[..last], batch[last]);
      assert batch == batch[..last] + [batch[last]];
      assert forall n: nat :: n in at + [last] <==> n in at || n == last;
      assert forall i :: 0 <= i < |at| ==> at[i] in at;
      if batch[last].provider == p {
        at := at + [last];
      }
    }
  }

  lemma ForNothing(p: nat)
    ensures For([], p) == []
  {
  }

  lemma ForSome(batch: seq<Queued>, p: nat)
    ensures For(batch, p) != [] <==> exists q :: q in batch && q.provider == p
    ensures |For(batch, p)| <= |batch|
  {
    hide For;
    var at := ForExactly(batch, p);
    if at != [] {
      assert at[0] in at && batch[at[0]] in batch;
    }
    if q :| q in batch && q.provider == p {
      var n: nat :| n < |batch| && batch[n] == q;
      assert n in at;
    }
  }

  /** The transactions of all provider batches. */
  function Pooled(groups: map<nat, seq<Raw>>): multiset<Raw>
    decreases |groups|
  {
    if groups == map[] then multiset{} else
      var k := Least(groups.Keys);
      assert (groups - {k}).Keys == groups.Keys - {k};
      multiset(groups[k]) + Pooled(groups - {k})
  }

  lemma {:induction false} PooledWithout(groups: map<nat, seq<Raw>>, p: nat)
    requires p in groups
    ensures Pooled(groups) == multiset(groups[p]) + Pooled(groups - {p})
    decreases |groups|
  {
    var k := Least(groups.Keys);
    if k == p {
    } else {
      var rest := groups - {k};
      assert rest.Keys == groups.Keys - {k};
      PooledWithout(rest, p);
      assert k in groups - {p} && Least((groups - {p}).Keys) == k;
      assert groups - {p} - {k} == rest - {p};
    }
  }

  /** One more transaction for provider `p`. */
  lemma PooledAdd(groups: map<nat, seq<Raw>>, p: nat, raw: Raw)
    ensures var txs := if p in groups then groups[p] else [];
            Pooled(groups[p := txs + [raw]]) == Pooled(groups) + multiset{raw}
  {
    hide Pooled;
    var txs := if p in groups then groups[p] else [];
    var now := groups[p := txs + [raw]];
    PooledWithout(now, p);
    assert now - {p} == groups - {p};
    assert multiset(txs + [raw]) == multiset(txs) + multiset{raw};
    if p in groups {
      PooledWithout(groups, p);
    } else {
      assert multiset(txs) == multiset{};
      assert groups - {p} == groups;
    }
  }

  /** `groups` holds, for each provider of `batch`, its transactions in the order of the batch, and nothing else. */
  ghost predicate Grouped(groups: map<nat, seq<Raw>>, batch: seq<Queued>) {
    && (forall p: nat :: For(batch, p) == if p in groups then groups[p] else [])
    && (forall p :: p in groups ==> exists q :: q in batch && q.provider == p)
    && Pooled(groups) == multiset(QueuedRaws(batch))
  }

  lemma QueuedSnoc(batch: seq<Queued>, q: Queued)
    ensures QueuedRaws(batch + [q]) == QueuedRaws(batch) + [q.raw]
    ensures forall p: nat :: For(batch + [q], p) == For(batch, p) + if q.provider == p then [q.raw] else []
  {
    assert (batch + [q])[..|batch + [q]| - 1] == batch;
  }

  lemma GroupOne(groups: map<nat, seq<Raw>>, batch: seq<Queued>, q: Queued)
    requires Grouped(groups, batch)
    ensures Grouped(groups[q.provider := (if q.provider in groups then groups[q.provider] else []) + [q.raw]], batch + [q])
  {
    hide Pooled, For, QueuedRaws;
    var now := groups[q.provider := (if q.provider in groups then groups[q.provider] else []) + [q.raw]];
    QueuedSnoc(batch, q);
    PooledAdd(groups, q.provider, q.raw);
    forall p | p in now
      ensures exists x :: x in batch + [q] && x.provider == p
    {
      if p == q.provider {
        assert q in batch + [q];
      } else {
        var x :| x in batch && x.provider == p;
        assert x in batch + [q];
      }
    }
  }

  lemma GroupNone()
    ensures Grouped(map[], [])
  {
  }

  /** Groups one batch by provider. */
  method GroupByProvider(batch: seq<Queued>) returns (groups: map<nat, seq<Raw>>)
    ensures Grouped(groups, batch)
  {
    hide Grouped;
    groups := map[];
    GroupNone();
    for i := 0 to |batch|
      invariant Grouped(groups, batch[..i])
    {
      var q := batch[i];
      GroupOne(groups, batch[..i], q);
      assert batch[..i + 1] == batch[..i] + [q];
      groups := groups[q.provider := (if q.provider in groups then groups[q.provider] else []) + [q.raw]];
    }
    assert batch[..|batch|] == batch;
  }

  lemma NoGroups(groups: map<nat, seq<Raw>>)
    requires groups == map[]
    ensures Pooled(groups) == multiset{}
  {
  }

  /** The number of the call that offers a batch of `provider` to `client` after a connection error. */
  function Attempt(call: nat, provider: nat, client: nat): nat {
    call + 1 + if client > provider then client - 1 else client
  }

  /** Whether a batch gets through: to its own provider, or after a connection error to one of the others. */
  predicate Accepted(env: Env, call: nat, provider: nat, txs: seq<Raw>) {
    match env.send(call, provider, txs)
    case Sent => true
    case OtherError => false
    case ConnectionError =>
      exists c :: 0 <= c < env.clients && c != provider && env.send(Attempt(call, provider, c), c, txs) == Sent
  }

  /** After a connection error, try number `i` gets a batch of `provider` through: the other providers take turns. */
  ghost predicate RetrySent(env: Env, call: nat, provider: nat, txs: seq<Raw>, i: nat) {
    env.send(call + 1 + i, if i < provider then i else i + 1, txs) == Sent
  }

  ghost predicate FirstRetrySent(env: Env, call: nat, provider: nat, txs: seq<Raw>, i: nat) {
    RetrySent(env, call, provider, txs, i) && forall j: nat :: j < i ==> !RetrySent(env, call, provider, txs, j)
  }

  /** Sends one provider's batch, trying the other providers after a connection error. */
  method SendWithRetry(env: Env, call: nat, provider: nat, txs: seq<Raw>) returns (successful: nat, failed: nat, next: nat)
    requires provider < env.clients
    ensures if Accepted(env, call, provider, txs) then successful == |txs| && failed == 0 else successful == 0 && failed == |txs|
    ensures call < next <= call + env.clients
    ensures env.send(call, provider, txs) == Sent ==> (successful, failed, next) == (|txs|, 0, call + 1)
    ensures env.send(call, provider, txs) == OtherError ==> (successful, failed, next) == (0, |txs|, call + 1)
    ensures env.send(call, provider, txs) == ConnectionError ==>
              forall i: nat :: i < env.clients - 1 && FirstRetrySent(env, call, provider, txs, i) ==>
                                 (successful, failed, next) == (|txs|, 0, call + 2 + i)
    ensures env.send(call, provider, txs) == ConnectionError &&
            (forall i: nat :: i < env.clients - 1 ==> !RetrySent(env, call, provider, txs, i)) ==>
              (successful, failed, next) == (0, |txs|, call + env.clients)
  {
    successful, failed, next := 0, 0, call + 1;
    match env.send(call, provider, txs) {
      case Sent => successful := |txs|;
      case OtherError => failed := |txs|;
      case ConnectionError =>
        var retried := false;
        for client := 0 to env.clients
          invariant !retried && successful == 0 && failed == 0 && next == Attempt(call, provider, client)
          invariant forall c :: 0 <= c < client && c != provider ==> env.send(Attempt(call, provider, c), c, txs) != Sent
          invariant forall i: nat :: i < next - call - 1 ==> !RetrySent(env, call, provider, txs, i)
        {
          if client != provider {
            assert RetrySent(env, call, provider, txs, next - call - 1) <==> env.send(next, client, txs) == Sent;
            next := next + 1;
            if env.send(next - 1, client, txs) == Sent {
              successful := |txs|;
              retried := true;
              break;
            }
          }
        }
        if !retried {
          failed := |txs|;
        }
    }
  }

  /** A provider batch and what became of it. */
  datatype Delivery = Delivery(call: nat, provider: nat, txs: seq<Raw>, ok: bool)

  function Outcomes(log: seq<Delivery>, ok: bool): multiset<Raw> {
    if log == [] then multiset{} else
      var last := log[|log| - 1];
      Outcomes(log[..|log| - 1], ok) + if last.ok == ok then multiset(last.txs) else multiset{}
  }

  /** What the counters say, given what was delivered, and what of the current batch is still to send. */
  ghost predicate Accounted(env: Env, log: seq<Delivery>, successful: nat, failed: nat, missing: nat, all: multiset<Raw>) {
    && successful == |Outcomes(log, true)| && failed == missing + |Outcomes(log, false)|
    && Outcomes(log, true) + Outcomes(log, false) == all
    && forall d :: d in log ==> (d.ok <==> Accepted(env, d.call, d.provider, d.txs))
  }

  lemma Deliver(env: Env, log: seq<Delivery>, successful: nat, failed: nat, missing: nat, all: multiset<Raw>, d: Delivery)
    requires Accounted(env, log, successful, failed, missing, all) && (d.ok <==> Accepted(env, d.call, d.provider, d.txs))
    ensures Accounted(env, log + [d], successful + if d.ok then |d.txs| else 0, failed + if d.ok then 0 else |d.txs|,
                      missing, all + multiset(d.txs))
  {
    hide Accepted;
    assert (log + [d])[..|log + [d]| - 1] == log;
  }

  /** Each provider of the batch outside `rest` has been offered its transactions once. */
  ghost predicate Offered(part: seq<Delivery>, batch: seq<Queued>, rest: set<nat>) {
    && (forall d :: d in part ==> d.provider !in rest && d.txs == For(batch, d.provider) && d.txs != [])
    && (forall i, j :: 0 <= i < j < |part| ==> part[i].provider != part[j].provider)
    && forall q :: q in batch ==> q.provider in rest || exists d :: d in part && d.provider == q.provider
  }

  lemma NothingOffered(groups: map<nat, seq<Raw>>, batch: seq<Queued>)
    requires Grouped(groups, batch)
    ensures Offered([], batch, groups.Keys)
    ensures forall p :: p in groups ==> groups[p] == For(batch, p) && groups[p] != []
  {
    hide For, Pooled, QueuedRaws;
    forall p: nat
      ensures For(batch, p) != [] <==> exists q :: q in batch && q.provider == p
    {
      ForSome(batch, p);
    }
  }

  lemma OfferOne(part: seq<Delivery>, batch: seq<Queued>, rest: set<nat>, d: Delivery)
    requires Offered(part, batch, rest) && d.provider in rest && d.txs == For(batch, d.provider) && d.txs != []
    ensures Offered(part + [d], batch, rest - {d.provider})
  {
    hide For;
    var now := part + [d];
    assert now[|part|] == d;
    assert forall x :: x in part ==> x in now;
  }

  /** Sends one batch, provider by provider in any order. */
  method SendBatch(env: Env, batch: seq<Queued>, call0: nat, successful0: nat, failed0: nat,
                   ghost log0: seq<Delivery>, ghost missing: nat, ghost before: multiset<Raw>)
    returns (call: nat, successful: nat, failed: nat, ghost part: seq<Delivery>)
    requires forall q :: q in batch ==> q.provider < env.clients
    requires Accounted(env, log0, successful0, failed0, missing, before)
    ensures Accounted(env, log0 + part, successful, failed, missing, before + multiset(QueuedRaws(batch)))
    ensures successful + failed == successful0 + failed0 + |batch|
    ensures Offered(part, batch, {})
  {
    hide Accounted, Accepted, Pooled, For, Offered, Grouped, RetrySent, FirstRetrySent, QueuedRaws;
    call, successful, failed, part := call0, successful0, failed0, [];
    var groups: map<nat, seq<Raw>> := GroupByProvider(batch);
    GroupsPooled(groups, batch);
    NothingOffered(groups, batch);
    ghost var log, sent, all := log0, before, before + multiset(QueuedRaws(batch));
    while groups != map[]
      invariant log == log0 + part && Accounted(env, log, successful, failed, missing, sent)
      invariant sent + Pooled(groups) == all
      invariant Offered(part, batch, groups.Keys)
      invariant forall p :: p in groups ==> p < env.clients && groups[p] == For(batch, p) && groups[p] != []
      decreases |groups|
    {
      var p: nat :| p in groups;
      var txs := groups[p];
      var s, f, next := SendWithRetry(env, call, p, txs);
      ghost var d := Delivery(call, p, txs, Accepted(env, call, p, txs));
      Deliver(env, log, successful, failed, missing, sent, d);
      OfferOne(part, batch, groups.Keys, d);
      OneGroupLess(groups, p, sent, all);
      successful, failed, call, part := successful + s, failed + f, next, part + [d];
      log, sent := log + [d], sent + multiset(txs);
      groups := groups - {p};
    }
    NoGroups(groups);
    assert groups.Keys == {};
    assert sent + multiset{} == sent;
    AccountTotal(env, log0, successful0, failed0, missing, before);
    AccountTotal(env, log, successful, failed, missing, all);
  }

  lemma OneGroupLess(groups: map<nat, seq<Raw>>, p: nat, sent: multiset<Raw>, all: multiset<Raw>)
    requires p in groups && sent + Pooled(groups) == all
    ensures sent + multiset(groups[p]) + Pooled(groups - {p}) == all
    ensures (groups - {p}).Keys == groups.Keys - {p} && |groups - {p}| < |groups|
  {
    hide Pooled;
    PooledWithout(groups, p);
    assert (groups - {p}).Keys == groups.Keys - {p};
    assert |(groups - {p}).Keys| < |groups.Keys|;
  }

  lemma GroupsPooled(groups: map<nat, seq<Raw>>, batch: seq<Queued>)
    requires Grouped(groups, batch)
    ensures Pooled(groups) == multiset(QueuedRaws(batch)) && |multiset(QueuedRaws(batch))| == |batch|
    ensures forall p :: p in groups ==> exists q :: q in batch && q.provider == p
  {
  }

  /** The counters of a worker, the batches it sent and what became of each of them. */
  datatype Work = Work(successful: nat, failed: nat, batches: seq<seq<Queued>>, parts: seq<seq<Delivery>>)

  /**
   A worker has cut what it created into batches of the configured size, or of all its
   transactions if these are fewer, and offered the parts of each batch to their providers.
   Every transaction is counted exactly once, as sent, as not sent or as not created.
   */
  ghost predicate Worked(
    env: Env, start: nat, end: nat, perSender: nat, configured: nat, first: map<Address, nat>, w: Work)
    requires start < end && Ready(env, start, end - start, (end - start) * perSender)
  {
    var total := (end - start) * perSender;
    var p := Attempts(env, start, end - start, first, total);
    && w.successful + w.failed == total
    && Cut(w.batches, p.created, if configured == 0 || total == 0 then 1 else if configured < total then configured else total)
    && |w.parts| == |w.batches| && (forall i :: 0 <= i < |w.parts| ==> Offered(w.parts[i], w.batches[i], {}))
    && Accounted(env, Concat(w.parts), w.successful, w.failed, p.failed, multiset(QueuedRaws(QueuedOf(p.created))))
  }

  /** No provider is offered more transactions at once than the configured batch size, if there is one. */
  lemma DeliveriesBounded(
    env: Env, start: nat, end: nat, perSender: nat, configured: nat, first: map<Address, nat>, w: Work, i: nat, d: Delivery)
    requires start < end && Ready(env, start, end - start, (end - start) * perSender)
    requires Worked(env, start, end, perSender, configured, first, w) && i < |w.parts| && d in w.parts[i]
    ensures 1 <= |d.txs| && (configured > 0 ==> |d.txs| <= configured)
  {
    hide For, Accounted, Attempts, QueuedOf, QueuedRaws, Concat, Ready;
    ForSome(w.batches[i], d.provider);
  }

  /** One worker: creates its transactions, cuts them into batches and sends these. */
  method ProcessAccountChunk(env: Env, start: nat, end: nat, perSender: nat, configured: nat, first: map<Address, nat>)
    returns (successful: nat, failed: nat, ghost batches: seq<seq<Queued>>, ghost parts: seq<seq<Delivery>>)
    requires start < end && Ready(env, start, end - start, (end - start) * perSender)
    ensures successful + failed == (end - start) * perSender
    ensures Worked(env, start, end, perSender, configured, first, Work(successful, failed, batches, parts))
  {
    hide Accounted, Accepted, Consecutive, Attempts, QueuedOf, QueuedRaws, Concat, Cut, NoncesOf, Settles, Offered;
    var total := (end - start) * perSender;
    var size := Min(configured, total);
    var created, missing := CreateTransactions(env, start, end, perSender, size, first);
    batches, parts := created, [];
    ghost var p := Attempts(env, start, end - start, first, total);
    AttemptsConsecutive(env, start, end - start, first, total, 0);
    ProvidersKnown(env, batches, p.created, if size == 0 then 1 else size);
    successful, failed := 0, missing;
    AccountStart(env, missing);
    var call := 0;
    for i := 0 to |created|
      invariant Accounted(env, Concat(parts), successful, failed, missing, multiset(QueuedRaws(Concat(created[..i]))))
      invariant |parts| == i && forall j :: 0 <= j < i ==> Offered(parts[j], created[j], {})
    {
      assert created[i] in created;
      assert created[..i + 1] == created[..i] + [created[i]];
      ConcatSnoc(created[..i], created[i]);
      QueuedRawsJoin(Concat(created[..i]), created[i]);
      ghost var part;
      call, successful, failed, part :=
        SendBatch(env, created[i], call, successful, failed, Concat(parts), missing,
                  multiset(QueuedRaws(Concat(created[..i]))));
      ConcatSnoc(parts, part);
      parts := parts + [part];
    }
    assert created[..|created|] == created;
    AccountTotal(env, Concat(parts), successful, failed, missing, multiset(QueuedRaws(QueuedOf(p.created))));
    assert |QueuedRaws(QueuedOf(p.created))| == |p.created| by { QueuedSizes(p.created); }
  }

  lemma QueuedSizes(created: seq<Created>)
    ensures |QueuedRaws(QueuedOf(created))| == |created|
  {
  }

  lemma AccountTotal(env: Env, log: seq<Delivery>, successful: nat, failed: nat, missing: nat, all: multiset<Raw>)
    requires Accounted(env, log, successful, failed, missing, all)
    ensures successful + failed == missing + |all|
  {
  }

  lemma AccountStart(env: Env, missing: nat)
    ensures Accounted(env, Concat<Delivery>([]), 0, missing, missing, multiset(QueuedRaws(Concat([]))))
  {
  }

  lemma QueuedRawsJoin(a: seq<Queued>, b: seq<Queued>)
    ensures QueuedRaws(a + b) == QueuedRaws(a) + QueuedRaws(b)
  {
  }

  lemma ProvidersKnown(env: Env, batches: seq<seq<Queued>>, created: seq<Created>, full: nat)
    requires Cut(batches, created, full) && forall c :: c in created ==> Proper(env, c)
    ensures Concat(batches) == QueuedOf(created)
    ensures forall b :: b in batches ==> forall q :: q in b ==> q.provider < env.clients
  {
    forall b, q | b in batches && q in b
      ensures q.provider < env.clients
    {
      ConcatHolds(batches, b, q);
      var i :| 0 <= i < |created| && QueuedOf(created)[i] == q;
      assert created[i] in created;
    }
  }

  // ----- all workers -----

  /** The accounts of the first `w` ranges whose workers did not panic. */
  function Finished(ranges: seq<Range>, panics: nat -> bool, w: nat): int
    requires w <= |ranges|
  {
    if w == 0 then 0 else
      Finished(ranges, panics, w - 1) + if panics(w - 1) then 0 else ranges[w - 1].end - ranges[w - 1].start
  }

  /** Workers that finished cover all accounts exactly when none panicked. */
  lemma {:induction false} FinishedExactly(ranges: seq<Range>, panics: nat -> bool, n: nat)
    requires Partitions(ranges, n)
    ensures 0 <= Finished(ranges, panics, |ranges|) <= n
    ensures Finished(ranges, panics, |ranges|) == n <==> forall w :: 0 <= w < |ranges| ==> !panics(w)
  {
    if ranges == [] {
    } else {
      var w := |ranges| - 1;
      FinishedExactly(ranges[..w], panics, ranges[w].start);
      FinishedPrefix(ranges, panics, w, w);
    }
  }

  lemma {:induction false} FinishedPrefix(ranges: seq<Range>, panics: nat -> bool, w: nat, i: nat)
    requires i <= w <= |ranges|
    ensures Finished(ranges[..w], panics, i) == Finished(ranges, panics, i)
  {
    if i == 0 {
    } else {
      FinishedPrefix(ranges, panics, w, i - 1);
    }
  }

  /** The sums of the counters of the first `w` workers that did not panic. */
  function Sums(works: seq<Work>, panics: nat -> bool, w: nat): (nat, nat)
    requires w <= |works|
  {
    if w == 0 then (0, 0) else
      var (s, f) := Sums(works, panics, w - 1);
      if panics(w - 1) then (s, f) else (s + works[w - 1].successful, f + works[w - 1].failed)
  }

  lemma {:induction false} SumsPrefix(works: seq<Work>, panics: nat -> bool, w: nat, last: Work)
    requires w <= |works|
    ensures Sums(works + [last], panics, w) == Sums(works, panics, w)
  {
    if w == 0 {
    } else {
      SumsPrefix(works, panics, w - 1, last);
    }
  }

  /** Worker `w` has done its work on its range. */
  ghost predicate WorkerDone(
    env: nat -> Env, first: nat -> map<Address, nat>, perSender: nat, configured: nat, ranges: seq<Range>, w: nat, work: Work)
    requires w < |ranges|
  {
    var start, end := ranges[w].start, ranges[w].end;
    && start < end && Ready(env(w), start, end - start, (end - start) * perSender)
    && Worked(env(w), start, end, perSender, configured, first(w), work)
  }

  /** What the workers that did not panic have done covers their accounts. */
  lemma {:induction false} SumsCover(
    env: nat -> Env, first: nat -> map<Address, nat>, perSender: nat, configured: nat, ranges: seq<Range>,
    works: seq<Work>, panics: nat -> bool, w: nat)
    requires w <= |works| == |ranges|
    requires forall i :: 0 <= i < w && !panics(i) ==> WorkerDone(env, first, perSender, configured, ranges, i, works[i])
    ensures Sums(works, panics, w).0 + Sums(works, panics, w).1 == perSender * Finished(ranges, panics, w)
  {
    hide WorkerDone;
    if w == 0 {
    } else {
      SumsCover(env, first, perSender, configured, ranges, works, panics, w - 1);
      if !panics(w - 1) {
        DoneCounts(env, first, perSender, configured, ranges, w - 1, works[w - 1]);
        RowsDone(Finished(ranges, panics, w - 1), ranges[w - 1].end - ranges[w - 1].start, perSender);
      }
    }
  }

  lemma DoneCounts(env: nat -> Env, first: nat -> map<Address, nat>, perSender: nat, configured: nat,
                   ranges: seq<Range>, w: nat, work: Work)
    requires w < |ranges| && WorkerDone(env, first, perSender, configured, ranges, w, work)
    ensures work.successful + work.failed == (ranges[w].end - ranges[w].start) * perSender
  {
    hide Ready, Cut, Accounted, Offered, Attempts;
  }

  /**
   The totals over all workers: every transaction of every worker that did not panic is
   counted exactly once. A worker that panics adds nothing.
   */
  method SendBatchTransferTransactions(
    env: nat -> Env, panics: nat -> bool, first: nat -> map<Address, nat>, n: nat, perSender: nat, configured: nat)
    returns (totalSuccessful: nat, totalFailed: nat, ranges: seq<Range>, ghost works: seq<Work>)
    requires n >= 1 && forall w: nat :: env(w).clients > 0 && env(w).accounts == n && (perSender > 0 ==> Settles(env(w)))
    ensures Partitions(ranges, n) && exists chunk: nat :: Sized(ranges, chunk) && LeastChunk(n, chunk)
    ensures |works| == |ranges| && (totalSuccessful, totalFailed) == Sums(works, panics, |works|)
    ensures forall w :: 0 <= w < |ranges| && !panics(w) ==> WorkerDone(env, first, perSender, configured, ranges, w, works[w])
    ensures totalSuccessful + totalFailed == perSender * Finished(ranges, panics, |ranges|)
    ensures (forall w :: 0 <= w < |ranges| ==> !panics(w)) ==> totalSuccessful + totalFailed == n * perSender
  {
    hide Partitions, Worked, Settles, Sized, LeastChunk, WorkerDone, Ready, Sums, Finished;
    ghost var chunk;
    ranges, chunk := WorkerRanges(n);
    totalSuccessful, totalFailed, works := 0, 0, [];
    NoSums(panics);
    for w := 0 to |ranges|
      invariant |works| == w && (totalSuccessful, totalFailed) == Sums(works, panics, w)
      invariant forall i :: 0 <= i < w && !panics(i) ==> WorkerDone(env, first, perSender, configured, ranges, i, works[i])
    {
      ghost var work := Work(0, 0, [], []);
      if !panics(w) {
        var start, end := ranges[w].start, ranges[w].end;
        RangeWithin(ranges, n, w);
        WorkerReady(env(w), start, end, perSender);
        var successful, failed;
        ghost var batches, parts;
        successful, failed, batches, parts := ProcessAccountChunk(env(w), start, end, perSender, configured, first(w));
        totalSuccessful, totalFailed := totalSuccessful + successful, totalFailed + failed;
        work := Work(successful, failed, batches, parts);
        IsDone(env, first, perSender, configured, ranges, w, work);
      }
      OneMoreSum(works, panics, work);
      works := works + [work];
    }
    SumsCover(env, first, perSender, configured, ranges, works, panics, |ranges|);
    FinishedExactly(ranges, panics, n);
  }

  lemma NoSums(panics: nat -> bool)
    ensures Sums([], panics, 0) == (0, 0)
  {
  }

  lemma OneMoreSum(works: seq<Work>, panics: nat -> bool, work: Work)
    ensures var w := |works|;
            var (s, f) := Sums(works, panics, w);
            Sums(works + [work], panics, w + 1) == if panics(w) then (s, f) else (s + work.successful, f + work.failed)
  {
    hide Sums;
    SumsPrefix(works, panics, |works|, work);
    SumsStep(works + [work], panics, |works| + 1);
  }

  lemma SumsStep(works: seq<Work>, panics: nat -> bool, w: nat)
    requires 0 < w <= |works|
    ensures var (s, f) := Sums(works, panics, w - 1);
            Sums(works, panics, w) ==
            if panics(w - 1) then (s, f) else (s + works[w - 1].successful, f + works[w - 1].failed)
  {
  }

  lemma IsDone(env: nat -> Env, first: nat -> map<Address, nat>, perSender: nat, configured: nat,
               ranges: seq<Range>, w: nat, work: Work)
    requires w < |ranges|
    requires var start, end := ranges[w].start, ranges[w].end;
             start < end && Ready(env(w), start, end - start, (end - start) * perSender) &&
             Worked(env(w), start, end, perSender, configured, first(w), work)
    ensures WorkerDone(env, first, perSender, configured, ranges, w, work)
  {
  }

  lemma WorkerReady(env: Env, start: nat, end: nat, perSender: nat)
    requires env.clients > 0 && start < end <= env.accounts && (perSender > 0 ==> Settles(env))
    ensures Ready(env, start, end - start, (end - start) * perSender)
  {
    if perSender == 0 {
      assert (end - start) * perSender == 0;
    }
  }

  lemma RowsDone(before: int, width: int, perSender: nat)
    ensures perSender * before + width * perSender == perSender * (before + width)
  {
  }

  lemma RangeWithin(ranges: seq<Range>, n: nat, w: nat)
    requires Partitions(ranges, n) && w < |ranges|
    ensures ranges[w].start < ranges[w].end <= n
  {
    RangesEndBefore(ranges, n);
  }
}
