/** The bottom-up Merkle root over transaction bytes. */
module MerkleRoot {

  type Bytes = seq<bv8>

  /** A 32-byte digest. */
  type Digest = d: Bytes | |d| == 32 witness seq(32, _ => 0)

  /** keccak-256 is a parameter: nothing but the length of its result is used. */
  type Hash = Bytes -> Digest

  function Joined(a: Bytes, b: Bytes): Bytes {
    a + b
  }

  function Pair(h: Hash, a: Digest, b: Digest): Digest {
    h(Joined(a, b))
  }

  function Leaves(h: Hash, list: seq<Bytes>): (leaves: seq<Digest>)
    ensures |leaves| == |list| && forall i :: 0 <= i < |list| ==> leaves[i] == h(list[i])
  {
    seq(|list|, i requires 0 <= i < |list| => h(list[i]))
  }

  /** The layer above: neighbours are paired, and a last one without a neighbour with itself. */
  function NextLayer(h: Hash, layer: seq<Digest>): (next: seq<Digest>)
    ensures |next| == (|layer| + 1) / 2
  {
    if layer == [] then []
    else if |layer| == 1 then [Pair(h, layer[0], layer[0])]
    else [Pair(h, layer[0], layer[1])] + NextLayer(h, layer[2..])
  }

  function Top(h: Hash, layer: seq<Digest>): Digest
    requires layer != []
    decreases |layer|
  {
    if |layer| == 1 then layer[0] else Top(h, NextLayer(h, layer))
  }

  function Root(h: Hash, list: seq<Bytes>): Digest {
    if list == [] then h([]) else Top(h, Leaves(h, list))
  }

  method MerkleRootKeccak(h: Hash, list: seq<Bytes>) returns (root: Digest)
    ensures root == Root(h, list)
  {
    if list == [] {
      return h([]);
    }
    var layer := Leaves(h, list);
    while |layer| > 1
      invariant layer != [] && Top(h, layer) == Root(h, list)
      decreases |layer|
    {
      layer := HashLayer(h, layer);
    }
    return layer[0];
  }

  /** The inner loop: one layer up. */
  method HashLayer(h: Hash, layer: seq<Digest>) returns (next: seq<Digest>)
    ensures next == NextLayer(h, layer)
  {
    next := [];
    var i := 0;
    while i < |layer|
      invariant i <= |layer| + 1
      invariant next + NextLayer(h, layer[if i <= |layer| then i else |layer|..]) == NextLayer(h, layer)
    {
      ghost var rest := layer[i..];
      if i + 1 == |layer| {
        next := next + [Pair(h, layer[i], layer[i])];
      } else {
        assert rest[2..] == layer[i + 2..];
        next := next + [Pair(h, layer[i], layer[i + 1])];
      }
      i := i + 2;
    }
    assert next + [] == next;
  }

  // ----- the same root from the top -----

  function Pow2(d: nat): (p: nat)
    ensures p >= 1
  {
    if d == 0 then 1 else 2 * Pow2(d - 1)
  }

  /** The least depth that has room for `n` leaves: the logarithm of `n` to base 2, rounded up. */
  function Depth(n: nat): (d: nat)
    requires n >= 1
    ensures n <= Pow2(d) && (d > 0 ==> Pow2(d - 1) < n)
  {
    if n == 1 then 0 else 1 + Depth((n + 1) / 2)
  }

  /** A tree of depth `d` split at powers of two; a missing right half is hashed with the left one. */
  function TopDown(h: Hash, leaves: seq<Digest>, d: nat): Digest
    requires 1 <= |leaves| <= Pow2(d)
  {
    if d == 0 then leaves[0]
    else if |leaves| > Pow2(d - 1) then
      h(TopDown(h, leaves[..Pow2(d - 1)], d - 1) + TopDown(h, leaves[Pow2(d - 1)..], d - 1))
    else
      h(TopDown(h, leaves, d - 1) + TopDown(h, leaves, d - 1))
  }

  lemma NextLayerPair(h: Hash, layer: seq<Digest>)
    requires |layer| >= 2
    ensures NextLayer(h, layer) == [Pair(h, layer[0], layer[1])] + NextLayer(h, layer[2..])
  {
  }

  lemma {:induction false} NextLayerSplit(h: Hash, a: seq<Digest>, b: seq<Digest>)
    requires |a| % 2 == 0
    ensures NextLayer(h, a + b) == NextLayer(h, a) + NextLayer(h, b)
  {
    if a == [] {
      assert a + b == b;
    } else {
      hide NextLayer, Pair;
      NextLayerSplit(h, a[2..], b);
      assert (a + b)[2..] == a[2..] + b;
      NextLayerPair(h, a + b);
      NextLayerPair(h, a);
    }
  }

  /** Splitting at a power of two and moving up a layer commute. */
  lemma SplitLayer(h: Hash, leaves: seq<Digest>, d: nat)
    requires d > 0 && Pow2(d) <= |leaves|
    ensures Pow2(d - 1) <= |NextLayer(h, leaves)|
    ensures NextLayer(h, leaves)[..Pow2(d - 1)] == NextLayer(h, leaves[..Pow2(d)])
    ensures NextLayer(h, leaves)[Pow2(d - 1)..] == NextLayer(h, leaves[Pow2(d)..])
  {
    var a, b := leaves[..Pow2(d)], leaves[Pow2(d)..];
    assert leaves == a + b;
    NextLayerSplit(h, a, b);
  }

  lemma TopDownStep(h: Hash, leaves: seq<Digest>, d: nat)
    requires 1 <= |leaves| <= Pow2(d + 1)
    ensures TopDown(h, leaves, d + 1) ==
            if |leaves| > Pow2(d) then Pair(h, TopDown(h, leaves[..Pow2(d)], d), TopDown(h, leaves[Pow2(d)..], d))
            else Pair(h, TopDown(h, leaves, d), TopDown(h, leaves, d))
  {
  }

  lemma TopDownLayerBase(h: Hash, leaves: seq<Digest>)
    requires 1 <= |leaves| <= 2
    ensures TopDown(h, leaves, 1) == TopDown(h, NextLayer(h, leaves), 0)
  {
    TopDownStep(h, leaves, 0);
    assert |leaves| == 2 ==> leaves[..1] == [leaves[0]] && leaves[1..] == [leaves[1]];
  }

  lemma {:induction false} TopDownLayer(h: Hash, leaves: seq<Digest>, d: nat)
    requires 1 <= |leaves| <= Pow2(d + 1)
    ensures TopDown(h, leaves, d + 1) == TopDown(h, NextLayer(h, leaves), d)
  {
    hide NextLayer, TopDown;
    if d == 0 {
      TopDownLayerBase(h, leaves);
    } else {
      TopDownStep(h, leaves, d);
      TopDownStep(h, NextLayer(h, leaves), d - 1);
      if |leaves| > Pow2(d) {
        TopDownLayer(h, leaves[..Pow2(d)], d - 1);
        TopDownLayer(h, leaves[Pow2(d)..], d - 1);
        SplitLayer(h, leaves, d);
      } else {
        TopDownLayer(h, leaves, d - 1);
      }
    }
  }

  lemma {:induction false} TopIsTopDown(h: Hash, layer: seq<Digest>)
    requires layer != []
    ensures Top(h, layer) == TopDown(h, layer, Depth(|layer|))
    decreases |layer|
  {
    hide NextLayer;
    if |layer| == 1 {
    } else {
      TopIsTopDown(h, NextLayer(h, layer));
      TopDownLayer(h, layer, Depth(|layer|) - 1);
    }
  }

  /** The bottom-up loop computes the top-down tree of least depth. */
  lemma RootIsTopDown(h: Hash, list: seq<Bytes>)
    requires list != []
    ensures Root(h, list) == TopDown(h, Leaves(h, list), Depth(|list|))
  {
    TopIsTopDown(h, Leaves(h, list));
  }

  // ----- binding -----

  ghost predicate Collision(h: Hash, x: Bytes, y: Bytes) {
    x != y && h(x) == h(y)
  }

  lemma {:induction false} LayerCollision(h: Hash, a: seq<Digest>, b: seq<Digest>) returns (x: Bytes, y: Bytes)
    requires |a| == |b| && a != b && NextLayer(h, a) == NextLayer(h, b)
    ensures Collision(h, x, y)
  {
    if |a| == 1 {
      x, y := Joined(a[0], a[0]), Joined(b[0], b[0]);
      assert x[..32] == a[0] && y[..32] == b[0];
      assert NextLayer(h, a)[0] == NextLayer(h, b)[0];
    } else {
      x, y := Joined(a[0], a[1]), Joined(b[0], b[1]);
      assert NextLayer(h, a)[0] == NextLayer(h, b)[0];
      if x == y {
        assert a[0] == x[..32] == y[..32] == b[0];
        assert a[1] == x[32..] == y[32..] == b[1];
        assert NextLayer(h, a)[1..] == NextLayer(h, a[2..]) && NextLayer(h, b)[1..] == NextLayer(h, b[2..]);
        assert a == [a[0], a[1]] + a[2..] && b == [b[0], b[1]] + b[2..];
        x, y := LayerCollision(h, a[2..], b[2..]);
      }
    }
  }

  lemma {:induction false} TopCollision(h: Hash, a: seq<Digest>, b: seq<Digest>) returns (x: Bytes, y: Bytes)
    requires |a| == |b| && a != b && a != [] && Top(h, a) == Top(h, b)
    ensures Collision(h, x, y)
    decreases |a|
  {
    if |a| == 1 || NextLayer(h, a) == NextLayer(h, b) {
      x, y := LayerCollision(h, a, b);
    } else {
      x, y := TopCollision(h, NextLayer(h, a), NextLayer(h, b));
    }
  }

  /** Two different lists of one length with one root give two inputs with one hash. */
  lemma RootBinds(h: Hash, a: seq<Bytes>, b: seq<Bytes>) returns (x: Bytes, y: Bytes)
    requires |a| == |b| && a != b && Root(h, a) == Root(h, b)
    ensures Collision(h, x, y)
  {
    var p, q := Leaves(h, a), Leaves(h, b);
    if p == q {
      var i :| 0 <= i < |a| && a[i] != b[i];
      assert p[i] == q[i];
      x, y := a[i], b[i];
    } else {
      x, y := TopCollision(h, p, q);
    }
  }

  lemma {:induction false} NextLayerRepeatLast(h: Hash, layer: seq<Digest>)
    requires |layer| % 2 == 1
    ensures NextLayer(h, layer + [layer[|layer| - 1]]) == NextLayer(h, layer)
  {
    var longer := layer + [layer[|layer| - 1]];
    if |layer| > 1 {
      NextLayerRepeatLast(h, layer[2..]);
      assert longer[2..] == layer[2..] + [layer[|layer| - 1]];
    } else {
      assert longer[2..] == [];
    }
  }

  /** The length has to be known: repeating the last of an odd number of transactions, from three on, keeps the root. */
  lemma RepeatLastKeepsRoot(h: Hash, list: seq<Bytes>)
    requires |list| % 2 == 1 && |list| >= 3
    ensures Root(h, list + [list[|list| - 1]]) == Root(h, list)
  {
    var longer := list + [list[|list| - 1]];
    var leaves := Leaves(h, list);
    assert Leaves(h, longer) == leaves + [leaves[|leaves| - 1]];
    NextLayerRepeatLast(h, leaves);
  }

  // ----- lists of different lengths -----

  /** `leaf` paired with itself `d` times over. */
  function Tower(h: Hash, leaf: Digest, d: nat): Digest {
    if d == 0 then leaf else Pair(h, Tower(h, leaf, d - 1), Tower(h, leaf, d - 1))
  }

  lemma {:induction false} TowerOnTower(h: Hash, leaf: Digest, d: nat, e: nat)
    ensures Tower(h, Tower(h, leaf, e), d) == Tower(h, leaf, d + e)
  {
    if d == 0 {
    } else {
      TowerOnTower(h, leaf, d - 1, e);
    }
  }

  /** A tree of depth `d` whose leaves are all equal is a tower, however many leaves it has. */
  lemma {:induction false} EqualLeaves(h: Hash, leaves: seq<Digest>, d: nat)
    requires 1 <= |leaves| <= Pow2(d) && forall i :: 0 <= i < |leaves| ==> leaves[i] == leaves[0]
    ensures TopDown(h, leaves, d) == Tower(h, leaves[0], d)
  {
    if d == 0 {
    } else {
      if |leaves| > Pow2(d - 1) {
        EqualLeaves(h, leaves[..Pow2(d - 1)], d - 1);
        EqualLeaves(h, leaves[Pow2(d - 1)..], d - 1);
      } else {
        EqualLeaves(h, leaves, d - 1);
      }
    }
  }

  function Repeated(x: Bytes, n: nat): (list: seq<Bytes>)
    ensures |list| == n
  {
    seq(n, i => x)
  }

  lemma RootOfRepeated(h: Hash, x: Bytes, n: nat)
    requires n >= 1
    ensures Root(h, Repeated(x, n)) == Tower(h, h(x), Depth(n))
  {
    var list := Repeated(x, n);
    RootIsTopDown(h, list);
    EqualLeaves(h, Leaves(h, list), Depth(n));
  }

  /** What to repeat in a tree of depth `d` so that it looks like the repeated `x` in a tree of depth `d + e`. */
  function Stretched(h: Hash, x: Bytes, e: nat): Bytes {
    if e == 0 then x else Joined(Tower(h, h(x), e - 1), Tower(h, h(x), e - 1))
  }

  lemma StretchedHash(h: Hash, x: Bytes, e: nat)
    ensures h(Stretched(h, x, e)) == Tower(h, h(x), e)
  {
  }

  lemma SameRootDeeper(h: Hash, x: Bytes, n: nat, m: nat)
    requires n >= 1 && m >= 1 && Depth(n) <= Depth(m)
    ensures Root(h, Repeated(Stretched(h, x, Depth(m) - Depth(n)), n)) == Root(h, Repeated(x, m))
  {
    hide Root, Stretched, Depth, Tower, Repeated;
    var e := Depth(m) - Depth(n);
    StretchedHash(h, x, e);
    RootOfRepeated(h, Stretched(h, x, e), n);
    RootOfRepeated(h, x, m);
    TowerOnTower(h, h(x), Depth(n), e);
  }

  /** Lists of these lengths cannot share a root without a collision of the hash. */
  predicate LengthsBind(n: nat, m: nat) {
    n == m || (n == 0 && m >= 2) || (m == 0 && n >= 2)
  }

  /** For all other lengths, and whatever the hash, there are lists of these lengths with one root. */
  lemma SharedRoot(h: Hash, n: nat, m: nat) returns (a: seq<Bytes>, b: seq<Bytes>)
    requires !LengthsBind(n, m)
    ensures |a| == n && |b| == m && a != b && Root(h, a) == Root(h, b)
  {
    hide Root, Stretched;
    if n == 0 || m == 0 {
      EmptyRoot(h);
      a, b := if n == 0 then [] else [[]], if m == 0 then [] else [[]];
    } else if Depth(n) <= Depth(m) {
      a, b := Repeated(Stretched(h, [], Depth(m) - Depth(n)), n), Repeated([], m);
      SameRootDeeper(h, [], n, m);
    } else {
      a, b := Repeated([], n), Repeated(Stretched(h, [], Depth(n) - Depth(m)), m);
      SameRootDeeper(h, [], m, n);
    }
  }

  /** The empty list and the list of one empty transaction have one root. */
  lemma EmptyRoot(h: Hash)
    ensures Root(h, []) == Root(h, [[]])
  {
    assert Leaves(h, [[]]) == [h([])];
  }

  /** What goes into the hash that gives the root of two or more transactions: two digests. */
  lemma {:induction false} TopIsPair(h: Hash, layer: seq<Digest>) returns (x: Digest, y: Digest)
    requires |layer| >= 2
    ensures Top(h, layer) == h(Joined(x, y))
    decreases |layer|
  {
    if |layer| == 2 {
      assert layer[2..] == [];
      x, y := layer[0], layer[1];
      assert NextLayer(h, layer) == [Pair(h, x, y)];
    } else {
      x, y := TopIsPair(h, NextLayer(h, layer));
    }
  }

  /** A list of two transactions or more has the root of the empty list only by a collision. */
  lemma EmptyBinds(h: Hash, list: seq<Bytes>) returns (x: Bytes, y: Bytes)
    requires |list| >= 2 && Root(h, list) == Root(h, [])
    ensures Collision(h, x, y)
  {
    var p, q := TopIsPair(h, Leaves(h, list));
    x, y := Joined(p, q), [];
  }

  /** Exactly for these lengths, two different lists with one root give two inputs with one hash. */
  lemma LengthsBindExactly(h: Hash, a: seq<Bytes>, b: seq<Bytes>) returns (x: Bytes, y: Bytes)
    requires LengthsBind(|a|, |b|) && a != b && Root(h, a) == Root(h, b)
    ensures Collision(h, x, y)
  {
    if |a| == |b| {
      x, y := RootBinds(h, a, b);
    } else if a == [] {
      x, y := EmptyBinds(h, b);
    } else {
      x, y := EmptyBinds(h, a);
    }
  }
}
