/** Merkle roots and storage proofs over an abstract pair hash. */
module Merkle {

  type PairHash<!T> = (T, T) -> T

  datatype PathResult<T> = Path(siblings: seq<T>) | OutOfBounds

  /** The right child of node `p` one level up; an unpaired last node is its own sibling. */
  function RightChild<T>(level: seq<T>, p: nat): T
    requires 2 * p < |level|
  {
    if 2 * p + 1 < |level| then level[2 * p + 1] else level[2 * p]
  }

  function NextLevel<T>(level: seq<T>, hash: PairHash<T>): (r: seq<T>)
    ensures |r| == (|level| + 1) / 2
    ensures forall p :: 0 <= p < |r| ==> r[p] == hash(level[2 * p], RightChild(level, p))
  {
    seq((|level| + 1) / 2, p requires 0 <= p < (|level| + 1) / 2 => hash(level[2 * p], RightChild(level, p)))
  }

  function Root<T>(leaves: seq<T>, hash: PairHash<T>): T
    requires leaves != []
    decreases |leaves|
  {
    if |leaves| == 1 then leaves[0] else Root(NextLevel(leaves, hash), hash)
  }

  function Depth(n: nat): nat {
    if n <= 1 then 0 else 1 + Depth((n + 1) / 2)
  }

  function Sibling<T>(level: seq<T>, i: nat): T
    requires i < |level|
  {
    if i % 2 == 0 then RightChild(level, i / 2) else level[i - 1]
  }

  function Siblings<T>(leaves: seq<T>, i: nat, hash: PairHash<T>): seq<T>
    requires i < |leaves|
    decreases |leaves|
  {
    if |leaves| == 1 then [] else [Sibling(leaves, i)] + Siblings(NextLevel(leaves, hash), i / 2, hash)
  }

  /** The root that a leaf, a path and an index claim. */
  function Fold<T>(leaf: T, path: seq<T>, i: int, hash: PairHash<T>): T
    decreases |path|
  {
    if path == [] then leaf
    else Fold(if i % 2 == 0 then hash(leaf, path[0]) else hash(path[0], leaf), path[1..], i / 2, hash)
  }

  // ----- the builders and the verifier

  method BuildNextLevel<T>(level: seq<T>, hash: PairHash<T>) returns (next: seq<T>)
    ensures next == NextLevel(level, hash)
  {
    next := [];
    var i := 0;
    while i < |level|
      invariant i == 2 * |next| && |next| <= (|level| + 1) / 2
      invariant forall p :: 0 <= p < |next| ==> next[p] == NextLevel(level, hash)[p]
    {
      var left := level[i];
      var right := if i + 1 < |level| then level[i + 1] else left;
      next := next + [hash(left, right)];
      i := i + 2;
    }
  }

  method BuildMerkleRoot<T>(leaves: seq<T>, hash: PairHash<T>, zeroHash: T) returns (root: T)
    ensures root == if leaves == [] then zeroHash else Root(leaves, hash)
  {
    if leaves == [] { return zeroHash; }
    var level := leaves;
    while |level| > 1
      invariant level != [] && Root(level, hash) == Root(leaves, hash)
      decreases |level|
    {
      level := BuildNextLevel(level, hash);
    }
    return level[0];
  }

  /** One level of the path loop, which moves the index up while it is still pairing nodes. */
  method PathLevel<T>(level: seq<T>, index: nat, hash: PairHash<T>) returns (next: seq<T>, siblings: seq<T>, idx: nat)
    requires index < |level|
    ensures next == NextLevel(level, hash) && siblings == [Sibling(level, index)] && idx == index / 2
  {
    next, siblings, idx := [], [], index;
    var i := 0;
    while i < |level|
      invariant i == 2 * |next| && |next| <= (|level| + 1) / 2
      invariant forall p :: 0 <= p < |next| ==> next[p] == NextLevel(level, hash)[p]
      invariant if i <= index then siblings == [] && idx == index
                else siblings == [Sibling(level, index)] && idx == index / 2
    {
      var left := level[i];
      var right := if i + 1 < |level| then level[i + 1] else left;
      if i == idx || i + 1 == idx {
        siblings := siblings + [if i == idx then right else left];
        idx := i / 2;
      }
      next := next + [hash(left, right)];
      i := i + 2;
    }
  }

  method BuildMerklePath<T>(leaves: seq<T>, index: int, hash: PairHash<T>) returns (r: PathResult<T>)
    ensures if leaves == [] then r == Path([])
            else if 0 <= index < |leaves| then r == Path(Siblings(leaves, index, hash))
            else r == OutOfBounds
  {
    if leaves == [] { return Path([]); }
    if index < 0 || index >= |leaves| { return OutOfBounds; }
    var idx, level := index, leaves;
    var path := [];
    while |level| > 1
      invariant 0 <= idx < |level|
      invariant path + Siblings(level, idx, hash) == Siblings(leaves, index, hash)
      decreases |level|
    {
      var next, siblings, up := PathLevel(level, idx, hash);
      assert path + ([Sibling(level, idx)] + Siblings(next, up, hash)) == path + siblings + Siblings(next, up, hash);
      path, level, idx := path + siblings, next, up;
    }
    assert path + [] == path;
    return Path(path);
  }

  predicate EvenNumber(x: real) { (x / 2.0).Floor as real == x / 2.0 }

  /**
   * The index that a number stands for: one that is not whole goes right
   * once and then up like the odd number next to it.
   */
  function IndexOf(chunkIndex: real): int {
    2 * (chunkIndex / 2.0).Floor + (if EvenNumber(chunkIndex) then 0 else 1)
  }

  method ComputeMerkleRoot<T>(leafHash: T, merklePath: seq<T>, chunkIndex: real, hash: PairHash<T>) returns (root: T)
    ensures root == Fold(leafHash, merklePath, IndexOf(chunkIndex), hash)
  {
    root := leafHash;
    var idx := chunkIndex;
    assert merklePath[0..] == merklePath;
    for k := 0 to |merklePath|
      invariant Fold(root, merklePath[k..], IndexOf(idx), hash) == Fold(leafHash, merklePath, IndexOf(chunkIndex), hash)
    {
      var sibling := merklePath[k];
      assert merklePath[k..][1..] == merklePath[k + 1..];
      IndexMoves(idx);
      root := if EvenNumber(idx) then hash(root, sibling) else hash(sibling, root);
      idx := (idx / 2.0).Floor as real;
    }
  }

  lemma IndexMoves(x: real)
    ensures (IndexOf(x) % 2 == 0) == EvenNumber(x)
    ensures IndexOf((x / 2.0).Floor as real) == IndexOf(x) / 2
  {
    WholeIndex((x / 2.0).Floor);
    TwiceAndRest((x / 2.0).Floor, if EvenNumber(x) then 0 else 1);
  }

  lemma TwiceAndRest(q: int, e: int)
    requires 0 <= e < 2
    ensures (2 * q + e) % 2 == e && (2 * q + e) / 2 == q
  {
  }

  lemma WholeIndex(i: int)
    ensures IndexOf(i as real) == i
  {
    var q := i / 2;
    assert i == 2 * q || i == 2 * q + 1;
    assert i as real / 2.0 == if i == 2 * q then q as real else q as real + 0.5;
  }

  // ----- every leaf has a proof

  lemma PairAbove<T>(level: seq<T>, i: nat, hash: PairHash<T>)
    requires i < |level|
    ensures NextLevel(level, hash)[i / 2]
            == if i % 2 == 0 then hash(level[i], Sibling(level, i)) else hash(Sibling(level, i), level[i])
  {
    assert i == 2 * (i / 2) + i % 2;
  }

  lemma {:induction false} PathReachesRoot<T>(leaves: seq<T>, i: nat, hash: PairHash<T>)
    requires i < |leaves|
    ensures Fold(leaves[i], Siblings(leaves, i, hash), i, hash) == Root(leaves, hash)
    ensures |Siblings(leaves, i, hash)| == Depth(|leaves|)
    decreases |leaves|
  {
    if |leaves| > 1 {
      var next := NextLevel(leaves, hash);
      PathReachesRoot(next, i / 2, hash);
      var path := Siblings(leaves, i, hash);
      assert path[1..] == Siblings(next, i / 2, hash) && path[0] == Sibling(leaves, i);
      PairAbove(leaves, i, hash);
    }
  }

  // ----- the root is built from halves

  function Pow2(k: nat): (p: nat)
    ensures p >= 1
  {
    if k == 0 then 1 else 2 * Pow2(k - 1)
  }

  lemma NextOfHalves<T>(a: seq<T>, b: seq<T>, hash: PairHash<T>)
    requires |a| % 2 == 0
    ensures NextLevel(a + b, hash) == NextLevel(a, hash) + NextLevel(b, hash)
  {
    var all, h := a + b, |a| / 2;
    forall p | 0 <= p < (|all| + 1) / 2
      ensures NextLevel(all, hash)[p] == (NextLevel(a, hash) + NextLevel(b, hash))[p]
    {
      if p < h {
        assert all[2 * p] == a[2 * p] && RightChild(all, p) == RightChild(a, p);
      } else {
        assert all[2 * p] == b[2 * (p - h)] && RightChild(all, p) == RightChild(b, p - h);
      }
    }
  }

  /**
   * The root hashes the root of the left half, a perfect tree, and that of the right half, which is as deep and may be
   * incomplete.
   */
  lemma {:induction false} RootOfHalves<T>(a: seq<T>, b: seq<T>, k: nat, hash: PairHash<T>)
    requires |a| == Pow2(k) && b != [] && Depth(|b|) == k
    ensures Root(a + b, hash) == hash(Root(a, hash), Root(b, hash))
    decreases k
  {
    if k == 0 {
      assert |b| == 1 && (a + b)[0] == a[0] && RightChild(a + b, 0) == b[0];
      assert NextLevel(a + b, hash) == [hash(a[0], b[0])];
    } else {
      NextOfHalves(a, b, hash);
      RootOfHalves(NextLevel(a, hash), NextLevel(b, hash), k - 1, hash);
    }
  }

  lemma RootOfTwo<T>(a: T, b: T, hash: PairHash<T>)
    ensures Root([a, b], hash) == hash(a, b)
  {
    assert NextLevel([a, b], hash) == [hash(a, b)];
  }

  /** A single leaf is its own root, and a leaf without a partner is hashed with itself. */
  lemma SmallRoots<T>(a: T, b: T, c: T, hash: PairHash<T>)
    ensures Root([a], hash) == a && Root([a, b], hash) == hash(a, b)
    ensures Root([a, b, c], hash) == hash(hash(a, b), hash(c, c))
  {
    RootOfTwo(a, b, hash);
    assert NextLevel([a, b, c], hash) == [hash(a, b), hash(c, c)];
    RootOfTwo(hash(a, b), hash(c, c), hash);
  }

  // ----- and a proof binds its leaf

  ghost predicate Injective<T(!new)>(hash: PairHash<T>) {
    forall a, b, c, d :: hash(a, b) == hash(c, d) ==> a == c && b == d
  }

  /** Two paths of one length that lead from one index to one root are the same, and so are their leaves. */
  lemma {:induction false} FoldInjective<T(!new)>(x: T, p: seq<T>, y: T, q: seq<T>, i: int, hash: PairHash<T>)
    requires Injective(hash) && |p| == |q| && Fold(x, p, i, hash) == Fold(y, q, i, hash)
    ensures x == y && p == q
    decreases |p|
  {
    if p != [] {
      var x' := if i % 2 == 0 then hash(x, p[0]) else hash(p[0], x);
      var y' := if i % 2 == 0 then hash(y, q[0]) else hash(q[0], y);
      FoldInjective(x', p[1..], y', q[1..], i / 2, hash);
      assert p == [p[0]] + p[1..] && q == [q[0]] + q[1..];
    }
  }

  /** The leaf at position `i` of the perfect tree that repeating unpaired nodes completes `n` leaves to. */
  function Spot(n: nat, i: int): (r: nat)
    requires n >= 1
    ensures r < n
    ensures 0 <= i < n ==> r == i
  {
    if n == 1 then 0
    else
      var j := 2 * Spot((n + 1) / 2, i / 2) + i % 2;
      if j < n then j else n - 1
  }

  /** The leaf at a spot is a child of the node at half that spot. */
  lemma SpotChild<T>(leaves: seq<T>, i: int)
    requires |leaves| > 1
    ensures var p := Spot((|leaves| + 1) / 2, i / 2);
            2 * p < |leaves| && leaves[Spot(|leaves|, i)] == if i % 2 == 0 then leaves[2 * p] else RightChild(leaves, p)
  {
  }

  lemma NodeAtSpot<T>(leaves: seq<T>, j: int, hash: PairHash<T>)
    requires |leaves| > 1
    ensures var next := NextLevel(leaves, hash);
            next[Spot(|next|, j)] == hash(leaves[Spot(|leaves|, 2 * j)], leaves[Spot(|leaves|, 2 * j + 1)])
  {
    assert (2 * j) / 2 == j && (2 * j) % 2 == 0 && (2 * j + 1) / 2 == j && (2 * j + 1) % 2 == 1;
    SpotChild(leaves, 2 * j);
    SpotChild(leaves, 2 * j + 1);
  }

  /** The other child of the node above position `i` of the completed tree. */
  function OtherChild<T>(level: seq<T>, i: int): T
    requires level != []
  {
    level[Spot(|level|, if i % 2 == 0 then i + 1 else i - 1)]
  }

  /** The path from position `i` of the completed tree to the root. */
  function FullPath<T>(leaves: seq<T>, i: int, hash: PairHash<T>): (path: seq<T>)
    requires leaves != []
    ensures |path| == Depth(|leaves|)
    decreases |leaves|
  {
    if |leaves| == 1 then [] else [OtherChild(leaves, i)] + FullPath(NextLevel(leaves, hash), i / 2, hash)
  }

  lemma PairAtSpot<T>(leaves: seq<T>, i: int, hash: PairHash<T>)
    requires |leaves| > 1
    ensures var next, x, y := NextLevel(leaves, hash), leaves[Spot(|leaves|, i)], OtherChild(leaves, i);
            next[Spot(|next|, i / 2)] == if i % 2 == 0 then hash(x, y) else hash(y, x)
  {
    PairOf(leaves, i / 2, if i % 2 == 0 then i else i - 1, hash);
  }

  lemma PairOf<T>(leaves: seq<T>, j: int, left: int, hash: PairHash<T>)
    requires |leaves| > 1 && left == 2 * j
    ensures var next := NextLevel(leaves, hash);
            next[Spot(|next|, j)] == hash(leaves[Spot(|leaves|, left)], leaves[Spot(|leaves|, left + 1)])
  {
    NodeAtSpot(leaves, j, hash);
  }

  /** At a leaf's own index the generated path is that of the completed tree. */
  lemma {:induction false} SiblingsAreFullPath<T>(leaves: seq<T>, i: nat, hash: PairHash<T>)
    requires i < |leaves|
    ensures Siblings(leaves, i, hash) == FullPath(leaves, i, hash)
    decreases |leaves|
  {
    if |leaves| > 1 {
      SiblingsAreFullPath(NextLevel(leaves, hash), i / 2, hash);
      SpotChild(leaves, if i % 2 == 0 then i + 1 else i - 1);
      assert (if i % 2 == 0 then i + 1 else i - 1) / 2 == i / 2;
    }
  }

  /** Every position of the completed tree has a proof. */
  lemma {:induction false} FullPathReachesRoot<T>(leaves: seq<T>, i: int, hash: PairHash<T>)
    requires leaves != []
    ensures Fold(leaves[Spot(|leaves|, i)], FullPath(leaves, i, hash), i, hash) == Root(leaves, hash)
    decreases |leaves|
  {
    if |leaves| > 1 {
      var next, path := NextLevel(leaves, hash), FullPath(leaves, i, hash);
      FullPathReachesRoot(next, i / 2, hash);
      assert path[0] == OtherChild(leaves, i) && path[1..] == FullPath(next, i / 2, hash);
      PairAtSpot(leaves, i, hash);
    }
  }

  /**
   * A path as long as the tree is deep is accepted, for any index at all,
   * exactly from that place of the completed tree.
   */
  lemma ProofBindsLeaf<T(!new)>(leaves: seq<T>, x: T, path: seq<T>, i: int, hash: PairHash<T>)
    requires Injective(hash) && leaves != [] && |path| == Depth(|leaves|)
    ensures Fold(x, path, i, hash) == Root(leaves, hash)
            <==> x == leaves[Spot(|leaves|, i)] && path == FullPath(leaves, i, hash)
  {
    FullPathReachesRoot(leaves, i, hash);
    if Fold(x, path, i, hash) == Root(leaves, hash) {
      FoldInjective(x, path, leaves[Spot(|leaves|, i)], FullPath(leaves, i, hash), i, hash);
    }
  }

  // ----- paths of any length

  /** The level `m` steps above the leaves. */
  function Level<T>(leaves: seq<T>, m: nat, hash: PairHash<T>): (level: seq<T>)
    requires leaves != [] && m <= Depth(|leaves|)
    ensures level != [] && Depth(|level|) == Depth(|leaves|) - m
    decreases m
  {
    if m == 0 then leaves else Level(NextLevel(leaves, hash), m - 1, hash)
  }

  lemma {:induction false} LevelRoot<T>(leaves: seq<T>, m: nat, hash: PairHash<T>)
    requires leaves != [] && m <= Depth(|leaves|)
    ensures Root(Level(leaves, m, hash), hash) == Root(leaves, hash)
    decreases m
  {
    if m > 0 {
      LevelRoot(NextLevel(leaves, hash), m - 1, hash);
    }
  }

  ghost predicate IsPair<T(!new)>(x: T, hash: PairHash<T>) { exists a, b :: x == hash(a, b) }

  ghost predicate NoPairs<T(!new)>(leaves: seq<T>, hash: PairHash<T>) { forall l :: l in leaves ==> !IsPair(l, hash) }

  lemma {:induction false} InteriorIsPair<T(!new)>(leaves: seq<T>, m: nat, p: nat, hash: PairHash<T>)
    requires leaves != [] && 0 < m <= Depth(|leaves|) && p < |Level(leaves, m, hash)|
    ensures IsPair(Level(leaves, m, hash)[p], hash)
    decreases m
  {
    var next := NextLevel(leaves, hash);
    if m == 1 {
      assert next[p] == hash(leaves[2 * p], RightChild(leaves, p));
    } else {
      InteriorIsPair(next, m - 1, p, hash);
    }
  }

  /** An interior node is accepted too, with the path from there: an accepted proof need not start from a leaf. */
  lemma InteriorAccepted<T>(leaves: seq<T>, m: nat, i: nat, hash: PairHash<T>)
    requires leaves != [] && m <= Depth(|leaves|) && i < |Level(leaves, m, hash)|
    ensures var level := Level(leaves, m, hash); Fold(level[i], Siblings(level, i, hash), i, hash) == Root(leaves, hash)
  {
    PathReachesRoot(Level(leaves, m, hash), i, hash);
    LevelRoot(leaves, m, hash);
  }

  /** The index `n` levels up. */
  function Half(i: int, n: nat): int
    decreases n
  {
    if n == 0 then i else Half(i / 2, n - 1)
  }

  lemma {:induction false} FoldSplit<T>(x: T, path: seq<T>, i: int, n: nat, hash: PairHash<T>)
    requires n <= |path|
    ensures Fold(x, path, i, hash) == Fold(Fold(x, path[..n], i, hash), path[n..], Half(i, n), hash)
    decreases n
  {
    if n == 0 {
      assert path[0..] == path;
    } else {
      var y := if i % 2 == 0 then hash(x, path[0]) else hash(path[0], x);
      FoldSplit(y, path[1..], i / 2, n - 1, hash);
      assert path[1..][..n - 1] == path[..n][1..] && path[1..][n - 1..] == path[n..];
    }
  }

  /**
   * What a proof of any length must be. One no longer than the tree is deep starts from a node of the level at its
   * distance from the root; the excess of a longer one leads up to a leaf.
   */
  ghost predicate Proves<T(!new)>(leaves: seq<T>, x: T, path: seq<T>, i: int, hash: PairHash<T>)
    requires leaves != []
  {
    var depth := Depth(|leaves|);
    if |path| <= depth then
      var level := Level(leaves, depth - |path|, hash);
      x == level[Spot(|level|, i)] && path == FullPath(level, i, hash)
    else
      var n := |path| - depth;
      Fold(x, path[..n], i, hash) == leaves[Spot(|leaves|, Half(i, n))]
        && path[n..] == FullPath(leaves, Half(i, n), hash)
  }

  /** The verifier, which looks at no length, accepts exactly these. */
  lemma AcceptedAtAnyLength<T(!new)>(leaves: seq<T>, x: T, path: seq<T>, i: int, hash: PairHash<T>)
    requires Injective(hash) && leaves != []
    ensures Fold(x, path, i, hash) == Root(leaves, hash) <==> Proves(leaves, x, path, i, hash)
  {
    var depth := Depth(|leaves|);
    if |path| <= depth {
      LevelRoot(leaves, depth - |path|, hash);
      ProofBindsLeaf(Level(leaves, depth - |path|, hash), x, path, i, hash);
    } else {
      var n := |path| - depth;
      FoldSplit(x, path, i, n, hash);
      ProofBindsLeaf(leaves, Fold(x, path[..n], i, hash), path[n..], Half(i, n), hash);
    }
  }

  lemma {:induction false} FoldIsPair<T(!new)>(x: T, path: seq<T>, i: int, hash: PairHash<T>)
    requires path != []
    ensures IsPair(Fold(x, path, i, hash), hash)
    decreases |path|
  {
    var y := if i % 2 == 0 then hash(x, path[0]) else hash(path[0], x);
    if |path| == 1 {
      assert path[1..] == [];
      assert Fold(y, [], i / 2, hash) == y;
    } else {
      FoldIsPair(y, path[1..], i / 2, hash);
    }
  }

  lemma ShortStartsFromPair<T(!new)>(leaves: seq<T>, x: T, path: seq<T>, i: int, hash: PairHash<T>)
    requires leaves != [] && |path| < Depth(|leaves|) && Proves(leaves, x, path, i, hash)
    ensures IsPair(x, hash)
  {
    var m := Depth(|leaves|) - |path|;
    InteriorIsPair(leaves, m, Spot(|Level(leaves, m, hash)|, i), hash);
  }

  lemma LongPassesPair<T(!new)>(leaves: seq<T>, x: T, path: seq<T>, i: int, hash: PairHash<T>)
    requires leaves != [] && |path| > Depth(|leaves|) && Proves(leaves, x, path, i, hash)
    ensures exists l :: l in leaves && IsPair(l, hash)
  {
    var n := |path| - Depth(|leaves|);
    FoldIsPair(x, path[..n], i, hash);
    assert leaves[Spot(|leaves|, Half(i, n))] in leaves;
  }

  /**
   * With leaves that are no pair hashes, a proof is accepted exactly if it is that of a node of the tree: none is
   * too long, and one is short exactly if what it starts from is a pair hash.
   */
  lemma AcceptedNodes<T(!new)>(leaves: seq<T>, x: T, path: seq<T>, i: int, hash: PairHash<T>)
    requires Injective(hash) && leaves != [] && NoPairs(leaves, hash)
    ensures Fold(x, path, i, hash) == Root(leaves, hash)
            <==> |path| <= Depth(|leaves|) && Proves(leaves, x, path, i, hash)
    ensures Fold(x, path, i, hash) == Root(leaves, hash) ==> (IsPair(x, hash) <==> |path| < Depth(|leaves|))
  {
    AcceptedAtAnyLength(leaves, x, path, i, hash);
    if Proves(leaves, x, path, i, hash) {
      if |path| > Depth(|leaves|) {
        LongPassesPair(leaves, x, path, i, hash);
      } else if |path| < Depth(|leaves|) {
        ShortStartsFromPair(leaves, x, path, i, hash);
      } else {
        assert x in leaves;
      }
    }
  }

  /** So one from what is no pair hash either is accepted, at any length, exactly if it is that of a leaf. */
  lemma SeparatedLeaves<T(!new)>(leaves: seq<T>, x: T, path: seq<T>, i: int, hash: PairHash<T>)
    requires Injective(hash) && leaves != [] && !IsPair(x, hash) && NoPairs(leaves, hash)
    ensures Fold(x, path, i, hash) == Root(leaves, hash)
            <==> x == leaves[Spot(|leaves|, i)] && path == FullPath(leaves, i, hash)
  {
    FullPathReachesRoot(leaves, i, hash);
    AcceptedNodes(leaves, x, path, i, hash);
  }

  /** So at a leaf's index it is accepted exactly if it is the generated one for that leaf. */
  lemma AcceptedExactly<T(!new)>(leaves: seq<T>, x: T, path: seq<T>, i: nat, hash: PairHash<T>)
    requires Injective(hash) && i < |leaves|
    requires |path| == Depth(|leaves|) || (!IsPair(x, hash) && NoPairs(leaves, hash))
    ensures Fold(x, path, i, hash) == Root(leaves, hash) <==> x == leaves[i] && path == Siblings(leaves, i, hash)
  {
    SiblingsAreFullPath(leaves, i, hash);
    if |path| == Depth(|leaves|) {
      ProofBindsLeaf(leaves, x, path, i, hash);
    } else {
      SeparatedLeaves(leaves, x, path, i, hash);
    }
  }

  // ----- which leaf lists share a root

  ghost predicate SameCompletion<T>(a: seq<T>, b: seq<T>)
    requires a != [] && b != []
  {
    forall i: nat :: a[Spot(|a|, i)] == b[Spot(|b|, i)]
  }

  lemma {:induction false} SameCompletionSameRoot<T>(a: seq<T>, b: seq<T>, hash: PairHash<T>)
    requires a != [] && b != [] && Depth(|a|) == Depth(|b|) && SameCompletion(a, b)
    ensures Root(a, hash) == Root(b, hash)
    decreases |a|
  {
    if |a| == 1 {
      assert a[Spot(|a|, 0)] == b[Spot(|b|, 0)];
    } else {
      var a', b' := NextLevel(a, hash), NextLevel(b, hash);
      forall j: nat ensures a'[Spot(|a'|, j)] == b'[Spot(|b'|, j)] {
        NodeAtSpot(a, j, hash);
        NodeAtSpot(b, j, hash);
        assert a[Spot(|a|, 2 * j)] == b[Spot(|b|, 2 * j)];
        assert a[Spot(|a|, 2 * j + 1)] == b[Spot(|b|, 2 * j + 1)];
      }
      SameCompletionSameRoot(a', b', hash);
    }
  }

  lemma {:induction false} SameRootSameCompletion<T(!new)>(a: seq<T>, b: seq<T>, hash: PairHash<T>, i: nat)
    requires Injective(hash) && a != [] && b != [] && Depth(|a|) == Depth(|b|) && Root(a, hash) == Root(b, hash)
    ensures a[Spot(|a|, i)] == b[Spot(|b|, i)]
    decreases |a|
  {
    if |a| > 1 {
      SameRootSameCompletion(NextLevel(a, hash), NextLevel(b, hash), hash, i / 2);
      var left := if i % 2 == 0 then i else i - 1;
      PairOf(a, i / 2, left, hash);
      PairOf(b, i / 2, left, hash);
    }
  }

  /** Leaf lists of one depth have one root exactly when they complete to the same perfect tree. */
  lemma SameRootExactly<T(!new)>(a: seq<T>, b: seq<T>, hash: PairHash<T>)
    requires Injective(hash) && a != [] && b != [] && Depth(|a|) == Depth(|b|)
    ensures Root(a, hash) == Root(b, hash) <==> SameCompletion(a, b)
  {
    if Root(a, hash) == Root(b, hash) {
      forall i: nat ensures a[Spot(|a|, i)] == b[Spot(|b|, i)] {
        SameRootSameCompletion(a, b, hash, i);
      }
    }
    if SameCompletion(a, b) {
      SameCompletionSameRoot(a, b, hash);
    }
  }

  lemma RootInjective<T(!new)>(a: seq<T>, b: seq<T>, hash: PairHash<T>)
    requires Injective(hash) && a != [] && |a| == |b| && Root(a, hash) == Root(b, hash)
    ensures a == b
  {
    forall i | 0 <= i < |a| ensures a[i] == b[i] {
      SameRootSameCompletion(a, b, hash, i);
    }
  }

  /** The equal length is needed: repeating the last of an odd number of leaves, more than one, keeps the root. */
  lemma RepeatedLastKeepsRoot<T>(leaves: seq<T>, hash: PairHash<T>)
    requires |leaves| > 1 && |leaves| % 2 == 1
    ensures Root(leaves + [leaves[|leaves| - 1]], hash) == Root(leaves, hash)
  {
    var more := leaves + [leaves[|leaves| - 1]];
    var a, b := NextLevel(more, hash), NextLevel(leaves, hash);
    assert |a| == |b|;
    forall p | 0 <= p < |a| ensures a[p] == b[p] {
      assert more[2 * p] == leaves[2 * p] && RightChild(more, p) == RightChild(leaves, p);
    }
    assert a == b;
  }

  lemma NotShallower<T(!new)>(a: seq<T>, b: seq<T>, hash: PairHash<T>)
    requires Injective(hash) && a != [] && b != [] && NoPairs(b, hash) && Root(a, hash) == Root(b, hash)
    ensures Depth(|a|) <= Depth(|b|)
  {
    var x, path := b[Spot(|b|, 0)], FullPath(b, 0, hash);
    FullPathReachesRoot(b, 0, hash);
    AcceptedAtAnyLength(a, x, path, 0, hash);
    if Depth(|b|) < Depth(|a|) {
      ShortStartsFromPair(a, x, path, 0, hash);
    }
  }

  /**
   * With leaves kept apart from pair hashes, lists of any two lengths share a
   * root if and only if they complete to one tree.
   */
  lemma SeparatedRootsExactly<T(!new)>(a: seq<T>, b: seq<T>, hash: PairHash<T>)
    requires Injective(hash) && a != [] && b != [] && NoPairs(a, hash) && NoPairs(b, hash)
    ensures Root(a, hash) == Root(b, hash) <==> Depth(|a|) == Depth(|b|) && SameCompletion(a, b)
  {
    if Root(a, hash) == Root(b, hash) {
      NotShallower(a, b, hash);
      NotShallower(b, a, hash);
    }
    if Depth(|a|) == Depth(|b|) {
      SameRootExactly(a, b, hash);
    }
  }
}
