/**
 * The shape all three Merkle implementations share: hash the leaves, then pair up each layer, an odd layer
 * pairing its last node with itself, until one node is left.
 */
module MerkleTree {
  import opened Hashing

  /** How an implementation hashes a leaf and a pair, and what it answers for no leaves at all. */
  datatype Scheme = Scheme(leaf: string -> string, node: (string, string) -> string, empty: string)

  ghost predicate CollisionFree(s: Scheme) {
    && Injective(s.leaf)
    && (forall x :: Plain(s.leaf(x)))
    && (forall a, b :: Plain(s.node(a, b)))
    && (forall a, b, c, d :: Plain(c) && Plain(d) && s.node(a, b) == s.node(c, d) ==> a == c && b == d)
  }

  ghost predicate IsNode(s: Scheme, digest: string) {
    exists a, b :: digest == s.node(a, b)
  }

  /** The digest of this leaf is no inner node's and not the answer for no leaves at all. */
  ghost predicate LeafApart(s: Scheme, leaf: string) {
    !IsNode(s, s.leaf(leaf)) && s.leaf(leaf) != s.empty
  }

  /** On these leaves the three kinds of digest never meet. */
  ghost predicate DomainsApart(s: Scheme, leaves: seq<string>) {
    !IsNode(s, s.empty) && forall i | 0 <= i < |leaves| :: LeafApart(s, leaves[i])
  }

  ghost predicate PlainLayer(layer: seq<string>) {
    forall i | 0 <= i < |layer| :: Plain(layer[i])
  }

  // ----- Roots -----

  /** The right child of the pair that starts at `i`: the left one again when the layer ends there. */
  function RightOf(layer: seq<string>, i: nat): string
    requires i < |layer|
  {
    if i + 1 < |layer| then layer[i + 1] else layer[i]
  }

  function NextLayer(s: Scheme, layer: seq<string>): (next: seq<string>)
    ensures |next| == (|layer| + 1) / 2
    ensures forall i | 0 <= i < |next| :: next[i] == s.node(layer[2 * i], RightOf(layer, 2 * i))
  {
    seq((|layer| + 1) / 2, i requires 0 <= i < (|layer| + 1) / 2 => s.node(layer[2 * i], RightOf(layer, 2 * i)))
  }

  function Fold(s: Scheme, layer: seq<string>): string
    requires |layer| > 0
    decreases |layer|
  {
    if |layer| == 1 then layer[0] else Fold(s, NextLayer(s, layer))
  }

  function LeafLayer(s: Scheme, leaves: seq<string>): (layer: seq<string>)
    ensures |layer| == |leaves|
    ensures forall i | 0 <= i < |leaves| :: layer[i] == s.leaf(leaves[i])
  {
    seq(|leaves|, i requires 0 <= i < |leaves| => s.leaf(leaves[i]))
  }

  function Root(s: Scheme, leaves: seq<string>): string {
    if |leaves| == 0 then s.empty else Fold(s, LeafLayer(s, leaves))
  }

  // ----- Depth -----

  /** How many times a layer of `n` nodes is paired up before one node is left. */
  function Depth(n: nat): nat {
    if n <= 1 then 0 else 1 + Depth((n + 1) / 2)
  }

  function Pow2(k: nat): (p: nat)
    ensures p > 0
  {
    if k == 0 then 1 else 2 * Pow2(k - 1)
  }

  /** The depth is the least k with 2^k >= n. */
  lemma {:induction false} DepthIsLeast(n: nat)
    ensures n <= Pow2(Depth(n))
    ensures forall k: nat | k < Depth(n) :: Pow2(k) < n
  {
    if n > 1 {
      DepthIsLeast((n + 1) / 2);
      forall k: nat | k < Depth(n) ensures Pow2(k) < n {
        if k > 0 { assert Pow2(k - 1) < (n + 1) / 2; }
      }
    }
  }

  // ----- Proofs -----

  datatype Side = Left | Right

  datatype Step = Step(siblingHash: string, side: Side)

  function Combine(s: Scheme, hash: string, step: Step): string {
    if step.side == Left then s.node(step.siblingHash, hash) else s.node(hash, step.siblingHash)
  }

  function Climb(s: Scheme, hash: string, path: seq<Step>): string
    decreases |path|
  {
    if path == [] then hash else Climb(s, Combine(s, hash, path[0]), path[1..])
  }

  /** The leaf position that a path's side bits spell, lowest bit first. */
  function Position(path: seq<Step>): nat {
    if path == [] then 0 else (if path[0].side == Left then 1 else 0) + 2 * Position(path[1..])
  }

  function StepAt(layer: seq<string>, idx: nat): Step
    requires idx < |layer|
  {
    if idx % 2 == 1 then Step(layer[idx - 1], Left) else Step(RightOf(layer, idx), Right)
  }

  /** The proof path of the node at `idx`. */
  function PathTo(s: Scheme, layer: seq<string>, idx: nat): seq<Step>
    requires idx < |layer|
    decreases |layer|
  {
    if |layer| == 1 then [] else [StepAt(layer, idx)] + PathTo(s, NextLayer(s, layer), idx / 2)
  }

  /**
   * The node that really sits at a position of the complete tree: the position itself, or the node that
   * padding copied there.
   */
  function Source(n: nat, pos: nat): (i: nat)
    requires n > 0
    ensures i < n
  {
    if n == 1 then 0
    else
      var p := Source((n + 1) / 2, pos / 2);
      if 2 * p + pos % 2 < n then 2 * p + pos % 2 else 2 * p
  }

  /** A position that is not padding is its own source. */
  lemma {:induction false} SourceOfPresent(n: nat, pos: nat)
    requires pos < n
    ensures Source(n, pos) == pos
  {
    if n > 1 { SourceOfPresent((n + 1) / 2, pos / 2); }
  }

  lemma StepClimbs(s: Scheme, layer: seq<string>, idx: nat)
    requires idx < |layer|
    ensures Combine(s, layer[idx], StepAt(layer, idx)) == NextLayer(s, layer)[idx / 2]
  {
    var half := idx / 2;
    assert NextLayer(s, layer)[half] == s.node(layer[2 * half], RightOf(layer, 2 * half));
  }

  /** Completeness: the built path climbs from its node to the root, is exactly as long as the tree is deep,
      and spells its node's position. */
  lemma {:induction false} PathClimbs(s: Scheme, layer: seq<string>, idx: nat)
    requires idx < |layer|
    ensures Climb(s, layer[idx], PathTo(s, layer, idx)) == Fold(s, layer)
    ensures |PathTo(s, layer, idx)| == Depth(|layer|)
    ensures Position(PathTo(s, layer, idx)) == idx
    decreases |layer|
  {
    if |layer| > 1 {
      var next, half, first := NextLayer(s, layer), idx / 2, StepAt(layer, idx);
      PathClimbs(s, next, half);
      StepClimbs(s, layer, idx);
      PathUnfolds(s, layer[idx], first, PathTo(s, next, half));
      assert (if first.side == Left then 1 else 0) == idx % 2;
    }
  }

  lemma PathUnfolds(s: Scheme, hash: string, first: Step, rest: seq<Step>)
    ensures Climb(s, hash, [first] + rest) == Climb(s, Combine(s, hash, first), rest)
    ensures Position([first] + rest) == (if first.side == Left then 1 else 0) + 2 * Position(rest)
  {
    assert ([first] + rest)[1..] == rest;
  }

  /** One step of building: the path so far grows by the step at `idx`, and what is left is one layer up. */
  lemma PathGrows(s: Scheme, layer: seq<string>, idx: nat, path: seq<Step>)
    requires idx < |layer| && |layer| > 1
    ensures path + PathTo(s, layer, idx) == path + [StepAt(layer, idx)] + PathTo(s, NextLayer(s, layer), idx / 2)
  {
    var rest := PathTo(s, NextLayer(s, layer), idx / 2);
    assert path + ([StepAt(layer, idx)] + rest) == path + [StepAt(layer, idx)] + rest;
  }

  /** Soundness: a path as long as the tree is deep reaches the root only from the node its side bits lead to,
      also when they lead into padding. */
  lemma {:induction false} ClimbDeterminesNode(s: Scheme, layer: seq<string>, hash: string, path: seq<Step>)
    requires CollisionFree(s) && |layer| > 0 && PlainLayer(layer)
    requires |path| == Depth(|layer|)
    requires Climb(s, hash, path) == Fold(s, layer)
    ensures hash == layer[Source(|layer|, Position(path))]
    decreases |layer|
  {
    if |layer| > 1 {
      var next, rest, up := NextLayer(s, layer), path[1..], Combine(s, hash, path[0]);
      ClimbDeterminesNode(s, next, up, rest);
      SourceOneLayerUp(s, layer, Position(path));
      assert Position(path) / 2 == Position(rest);
      NodeDeterminesStep(s, layer, Source(|next|, Position(rest)), hash, path[0]);
    }
  }

  /** An inner node tells which two nodes were combined. */
  lemma NodeDeterminesStep(s: Scheme, layer: seq<string>, p: nat, hash: string, step: Step)
    requires CollisionFree(s) && PlainLayer(layer) && 2 * p < |layer|
    requires Combine(s, hash, step) == NextLayer(s, layer)[p]
    ensures step.side == Left ==> step.siblingHash == layer[2 * p] && hash == RightOf(layer, 2 * p)
    ensures step.side == Right ==> hash == layer[2 * p] && step.siblingHash == RightOf(layer, 2 * p)
  {
    assert Plain(layer[2 * p]) && Plain(RightOf(layer, 2 * p));
  }

  lemma PositionOneUp(path: seq<Step>)
    requires path != []
    ensures Position(path) / 2 == Position(path[1..])
    ensures Position(path) == (if path[0].side == Left then 1 else 0) + 2 * Position(path[1..])
  {
  }

  /** A path is the built one if the steps after its first are, and its first names the right sibling. */
  lemma PathIsBuilt(s: Scheme, layer: seq<string>, first: Step, rest: seq<Step>, p: nat)
    requires |layer| > 1 && p < |NextLayer(s, layer)| && rest == PathTo(s, NextLayer(s, layer), p)
    requires first.siblingHash == if first.side == Left then layer[2 * p] else RightOf(layer, 2 * p)
    requires first.side == Left ==> 2 * p + 1 < |layer|
    ensures [first] + rest == PathTo(s, layer, (if first.side == Left then 1 else 0) + 2 * p)
  {
    if first.side == Left {
      LeftStep(layer, p);
      assert (2 * p + 1) / 2 == p;
    } else {
      RightStep(layer, p);
      assert 2 * p / 2 == p;
    }
  }

  lemma LeftStep(layer: seq<string>, p: nat)
    requires 2 * p + 1 < |layer|
    ensures StepAt(layer, 2 * p + 1) == Step(layer[2 * p], Left)
  {
    assert (2 * p + 1) % 2 == 1;
  }

  lemma RightStep(layer: seq<string>, p: nat)
    requires 2 * p < |layer|
    ensures StepAt(layer, 2 * p) == Step(RightOf(layer, 2 * p), Right)
  {
    assert 2 * p % 2 == 0;
  }

  lemma FirstStepDetermined(s: Scheme, layer: seq<string>, hash: string, path: seq<Step>)
    requires CollisionFree(s) && |layer| > 1 && PlainLayer(layer)
    requires |path| == Depth(|layer|) && Position(path) < |layer|
    requires Climb(s, hash, path) == Fold(s, layer)
    ensures var p := Position(path[1..]);
            p < |NextLayer(s, layer)| && (path[0].side == Left ==> 2 * p + 1 < |layer|) &&
            path[0].siblingHash == if path[0].side == Left then layer[2 * p] else RightOf(layer, 2 * p)
    ensures Position(path) == (if path[0].side == Left then 1 else 0) + 2 * Position(path[1..])
    ensures |path[1..]| == Depth(|NextLayer(s, layer)|)
    ensures Climb(s, Combine(s, hash, path[0]), path[1..]) == Fold(s, NextLayer(s, layer))
  {
    var next, rest := NextLayer(s, layer), path[1..];
    PositionOneUp(path);
    ClimbDeterminesNode(s, next, Combine(s, hash, path[0]), rest);
    SourceOfPresent(|next|, Position(rest));
    NodeDeterminesStep(s, layer, Position(rest), hash, path[0]);
  }

  /** And if the side bits spell a real position, the path is the built one and no other. */
  lemma {:induction false} ClimbDeterminesPath(s: Scheme, layer: seq<string>, hash: string, path: seq<Step>)
    requires CollisionFree(s) && |layer| > 0 && PlainLayer(layer)
    requires |path| == Depth(|layer|) && Position(path) < |layer|
    requires Climb(s, hash, path) == Fold(s, layer)
    ensures path == PathTo(s, layer, Position(path))
    decreases |layer|
  {
    if |layer| > 1 {
      var rest := path[1..];
      FirstStepDetermined(s, layer, hash, path);
      ClimbDeterminesPath(s, NextLayer(s, layer), Combine(s, hash, path[0]), rest);
      PathFollows(s, layer, path, rest, Position(rest), Position(path));
    }
  }

  lemma PathFollows(s: Scheme, layer: seq<string>, path: seq<Step>, rest: seq<Step>, p: nat, at: nat)
    requires |layer| > 1 && |path| > 0 && rest == path[1..] && p < |NextLayer(s, layer)| && rest == PathTo(s, NextLayer(s, layer), p)
    requires path[0].side == Left ==> 2 * p + 1 < |layer|
    requires path[0].siblingHash == if path[0].side == Left then layer[2 * p] else RightOf(layer, 2 * p)
    requires at == (if path[0].side == Left then 1 else 0) + 2 * p && at < |layer|
    ensures path == PathTo(s, layer, at)
  {
    PathIsBuilt(s, layer, path[0], rest, p);
    assert path == [path[0]] + rest;
  }

  /** A path shorter than the tree is deep starts at an inner node. */
  lemma {:induction false} ShortPathStartsInside(s: Scheme, layer: seq<string>, hash: string, path: seq<Step>)
    requires CollisionFree(s) && |layer| > 0 && PlainLayer(layer)
    requires |path| < Depth(|layer|)
    requires Climb(s, hash, path) == Fold(s, layer)
    ensures IsNode(s, hash)
    decreases |layer|
  {
    var next := NextLayer(s, layer);
    if |path| == Depth(|next|) {
      ClimbDeterminesNode(s, next, hash, path);
    } else {
      ShortPathStartsInside(s, next, hash, path);
    }
  }

  // ----- How much a root tells about its leaves -----

  /** Both lists fill the complete tree of the given depth alike, padding included. */
  ghost predicate SameExpansion(a: seq<string>, b: seq<string>, depth: nat)
    requires |a| > 0 && |b| > 0
  {
    forall pos: nat | pos < Pow2(depth) :: a[Source(|a|, pos)] == b[Source(|b|, pos)]
  }

  /** Both lists are empty, or padding makes the same complete tree of them. */
  ghost predicate SamePaddedTree(a: seq<string>, b: seq<string>) {
    || (a == [] && b == [])
    || (|a| > 0 && |b| > 0 && Depth(|a|) == Depth(|b|) && SameExpansion(a, b, Depth(|a|)))
  }

  lemma {:induction false} FoldDeterminesExpansion(s: Scheme, a: seq<string>, b: seq<string>)
    requires CollisionFree(s) && |a| > 0 && |b| > 0 && PlainLayer(a) && PlainLayer(b)
    requires Depth(|a|) == Depth(|b|)
    ensures Fold(s, a) == Fold(s, b) <==> SameExpansion(a, b, Depth(|a|))
    decreases |a|
  {
    if |a| == 1 {
      assert |b| == 1;
      assert SameExpansion(a, b, 0) ==> a[Source(1, 0)] == b[Source(1, 0)];
    } else {
      var x, y, d := NextLayer(s, a), NextLayer(s, b), Depth(|a|);
      FoldDeterminesExpansion(s, x, y);
      ExpansionOneLayerUp(s, a, b, d);
    }
  }

  /** Two layers fill the tree alike exactly when the layers above them do. */
  lemma ExpansionOneLayerUp(s: Scheme, a: seq<string>, b: seq<string>, depth: nat)
    requires CollisionFree(s) && |a| > 1 && |b| > 1 && PlainLayer(a) && PlainLayer(b) && depth > 0
    ensures SameExpansion(a, b, depth) <==> SameExpansion(NextLayer(s, a), NextLayer(s, b), depth - 1)
  {
    var x, y := NextLayer(s, a), NextLayer(s, b);
    if SameExpansion(x, y, depth - 1) {
      forall pos: nat | pos < Pow2(depth) ensures a[Source(|a|, pos)] == b[Source(|b|, pos)] {
        assert pos / 2 < Pow2(depth - 1);
        EqualParents(s, a, b, pos);
      }
    }
    if SameExpansion(a, b, depth) {
      forall pos: nat | pos < Pow2(depth - 1) ensures x[Source(|x|, pos)] == y[Source(|y|, pos)] {
        assert 2 * pos + 1 < Pow2(depth);
        EqualChildren(s, a, b, pos);
      }
    }
  }

  lemma EqualParents(s: Scheme, a: seq<string>, b: seq<string>, pos: nat)
    requires CollisionFree(s) && |a| > 1 && |b| > 1 && PlainLayer(a) && PlainLayer(b)
    requires NextLayer(s, a)[Source((|a| + 1) / 2, pos / 2)] == NextLayer(s, b)[Source((|b| + 1) / 2, pos / 2)]
    ensures a[Source(|a|, pos)] == b[Source(|b|, pos)]
  {
    SameNodesSameChildren(s, a, b, pos / 2);
    SourceOneLayerUp(s, a, pos);
    SourceOneLayerUp(s, b, pos);
  }

  lemma EqualChildren(s: Scheme, a: seq<string>, b: seq<string>, pos: nat)
    requires CollisionFree(s) && |a| > 1 && |b| > 1 && PlainLayer(a) && PlainLayer(b)
    requires a[Source(|a|, 2 * pos)] == b[Source(|b|, 2 * pos)]
    requires a[Source(|a|, 2 * pos + 1)] == b[Source(|b|, 2 * pos + 1)]
    ensures NextLayer(s, a)[Source((|a| + 1) / 2, pos)] == NextLayer(s, b)[Source((|b| + 1) / 2, pos)]
  {
    ChildrenOf(s, a, pos);
    ChildrenOf(s, b, pos);
    SameNodesSameChildren(s, a, b, pos);
  }

  lemma ChildrenOf(s: Scheme, layer: seq<string>, pos: nat)
    requires |layer| > 1
    ensures var p := Source((|layer| + 1) / 2, pos);
            2 * p < |layer| &&
            layer[Source(|layer|, 2 * pos)] == layer[2 * p] &&
            layer[Source(|layer|, 2 * pos + 1)] == RightOf(layer, 2 * p)
  {
    assert (2 * pos) / 2 == pos && (2 * pos + 1) / 2 == pos;
    SourceOneLayerUp(s, layer, 2 * pos);
    SourceOneLayerUp(s, layer, 2 * pos + 1);
  }

  /** Two inner nodes are equal exactly when their children are. */
  lemma SameNodesSameChildren(s: Scheme, a: seq<string>, b: seq<string>, pos: nat)
    requires CollisionFree(s) && |a| > 1 && |b| > 1 && PlainLayer(a) && PlainLayer(b)
    ensures var p, q := Source((|a| + 1) / 2, pos), Source((|b| + 1) / 2, pos);
            NextLayer(s, a)[p] == NextLayer(s, b)[q] <==>
            a[2 * p] == b[2 * q] && RightOf(a, 2 * p) == RightOf(b, 2 * q)
  {
  }

  lemma SourceStep(n: nat, pos: nat)
    requires n > 1
    ensures var p := Source((n + 1) / 2, pos / 2);
            2 * p < n && Source(n, pos) == if pos % 2 == 1 && 2 * p + 1 < n then 2 * p + 1 else 2 * p
  {
  }

  /** The node at a position is the left or the right child of the node above it, by the position's low bit. */
  lemma SourceOneLayerUp(s: Scheme, layer: seq<string>, pos: nat)
    requires |layer| > 1
    ensures (|layer| + 1) / 2 == |NextLayer(s, layer)|
    ensures var p := Source((|layer| + 1) / 2, pos / 2);
            2 * p < |layer| &&
            layer[Source(|layer|, pos)] == (if pos % 2 == 0 then layer[2 * p] else RightOf(layer, 2 * p))
  {
    SourceStep(|layer|, pos);
  }

  /** The leaf layer of a collision-free scheme says as much as the leaves. */
  lemma LeafLayerExpansion(s: Scheme, a: seq<string>, b: seq<string>, depth: nat)
    requires CollisionFree(s) && |a| > 0 && |b| > 0
    ensures PlainLayer(LeafLayer(s, a)) && PlainLayer(LeafLayer(s, b))
    ensures SameExpansion(LeafLayer(s, a), LeafLayer(s, b), depth) <==> SameExpansion(a, b, depth)
  {
    var x, y := LeafLayer(s, a), LeafLayer(s, b);
    if SameExpansion(x, y, depth) {
      forall pos: nat | pos < Pow2(depth) ensures a[Source(|a|, pos)] == b[Source(|b|, pos)] {
        assert x[Source(|x|, pos)] == y[Source(|y|, pos)];
      }
    }
    if SameExpansion(a, b, depth) {
      forall pos: nat | pos < Pow2(depth) ensures x[Source(|x|, pos)] == y[Source(|y|, pos)] {
        assert a[Source(|a|, pos)] == b[Source(|b|, pos)];
      }
    }
  }

  /** Equal-length lists with equal roots are equal. */
  lemma EqualRootsOfEqualLength(s: Scheme, a: seq<string>, b: seq<string>)
    requires CollisionFree(s) && |a| == |b|
    requires Root(s, a) == Root(s, b)
    ensures a == b
  {
    if |a| > 0 {
      LeafLayerExpansion(s, a, b, Depth(|a|));
      FoldDeterminesExpansion(s, LeafLayer(s, a), LeafLayer(s, b));
      DepthIsLeast(|a|);
      forall i | 0 <= i < |a| ensures a[i] == b[i] {
        SourceOfPresent(|a|, i);
        assert a[Source(|a|, i)] == b[Source(|b|, i)];
      }
    }
  }

  /** The exact extent of root injectivity at equal depth. */
  lemma EqualRootsOfEqualDepth(s: Scheme, a: seq<string>, b: seq<string>)
    requires CollisionFree(s) && |a| > 0 && |b| > 0 && Depth(|a|) == Depth(|b|)
    ensures Root(s, a) == Root(s, b) <==> SameExpansion(a, b, Depth(|a|))
  {
    LeafLayerExpansion(s, a, b, Depth(|a|));
    FoldDeterminesExpansion(s, LeafLayer(s, a), LeafLayer(s, b));
  }

  lemma RootsOfDifferentDepth(s: Scheme, a: seq<string>, b: seq<string>)
    requires CollisionFree(s) && DomainsApart(s, a) && |a| > 0 && |b| > 0
    requires Depth(|a|) < Depth(|b|)
    ensures Root(s, a) != Root(s, b)
  {
    var x, y := LeafLayer(s, a), LeafLayer(s, b);
    LeafLayerExpansion(s, a, b, 0);
    PathClimbs(s, x, 0);
    assert LeafApart(s, a[0]);
    if Fold(s, x) == Fold(s, y) {
      ShortPathStartsInside(s, y, x[0], PathTo(s, x, 0));
      assert false;
    }
  }

  /** Where the domains are apart no other precondition is left: equal roots are exactly equal padded trees. */
  lemma EqualRootsExactly(s: Scheme, a: seq<string>, b: seq<string>)
    requires CollisionFree(s) && DomainsApart(s, a) && DomainsApart(s, b)
    ensures Root(s, a) == Root(s, b) <==> SamePaddedTree(a, b)
  {
    if |a| > 0 && |b| > 0 {
      if Depth(|a|) == Depth(|b|) {
        EqualRootsOfEqualDepth(s, a, b);
      } else if Depth(|a|) < Depth(|b|) {
        RootsOfDifferentDepth(s, a, b);
      } else {
        RootsOfDifferentDepth(s, b, a);
      }
    } else if |a| > 0 {
      NonEmptyRoot(s, a);
    } else if |b| > 0 {
      NonEmptyRoot(s, b);
    }
  }

  lemma NonEmptyRoot(s: Scheme, a: seq<string>)
    requires CollisionFree(s) && DomainsApart(s, a) && |a| > 0
    ensures Root(s, a) != s.empty
  {
    var layer := LeafLayer(s, a);
    FoldIsDigest(s, layer);
    if Fold(s, layer) in layer {
      var i :| 0 <= i < |layer| && layer[i] == Fold(s, layer);
      assert LeafApart(s, a[i]);
    }
  }

  lemma {:induction false} FoldIsDigest(s: Scheme, layer: seq<string>)
    requires |layer| > 0
    ensures Fold(s, layer) in layer || IsNode(s, Fold(s, layer))
    decreases |layer|
  {
    if |layer| > 1 {
      var next := NextLayer(s, layer);
      FoldIsDigest(s, next);
      if Fold(s, next) in next {
        var i :| 0 <= i < |next| && next[i] == Fold(s, next);
        assert next[i] == s.node(layer[2 * i], RightOf(layer, 2 * i));
      }
    }
  }

  /** An odd list of three or more leaves and the same list with its last leaf written twice share their root. */
  lemma DuplicatedLastLeaf(s: Scheme, leaves: seq<string>)
    requires |leaves| >= 3 && |leaves| % 2 == 1
    ensures Root(s, leaves + [leaves[|leaves| - 1]]) == Root(s, leaves)
  {
    var more := leaves + [leaves[|leaves| - 1]];
    assert NextLayer(s, LeafLayer(s, more)) == NextLayer(s, LeafLayer(s, leaves));
  }
}
