/** The archive's Merkle root and membership proofs. */
module MerkleDag {
  import opened Wrappers
  import opened Hashing
  import opened MerkleTree

  datatype Proof = Proof(leafHash: string, path: seq<Step>, rootHash: string)

  /** No domain separation: a leaf is hashed as it stands, a pair as "left:right". */
  function DagScheme(h: string -> string): Scheme {
    Scheme(h, (left, right) => h(left + ":" + right), h("EMPTY"))
  }

  lemma DagCollisionFree(h: string -> string)
    requires HexDigest(h)
    ensures CollisionFree(DagScheme(h))
  {
    var s := DagScheme(h);
    forall a, b, c, d | Plain(c) && Plain(d) && s.node(a, b) == s.node(c, d) ensures a == c && b == d {
      JoinInjective(a, b, c, d);
    }
  }

  // ----- Operations -----

  method MerkleRootForLeaves(h: string -> string, leaves: seq<string>) returns (root: string)
    ensures root == Root(DagScheme(h), leaves)
  {
    if |leaves| == 0 { return h("EMPTY"); }
    ghost var s := DagScheme(h);
    var layer := seq(|leaves|, i requires 0 <= i < |leaves| => h(leaves[i]));
    assert layer == LeafLayer(s, leaves);
    while |layer| > 1
      invariant |layer| > 0 && Fold(s, layer) == Root(s, leaves)
      decreases |layer|
    {
      layer := PairUp(h, layer);
    }
    return layer[0];
  }

  method PairUp(h: string -> string, layer: seq<string>) returns (next: seq<string>)
    ensures next == NextLayer(DagScheme(h), layer)
  {
    ghost var all := NextLayer(DagScheme(h), layer);
    next := [];
    var i := 0;
    while i < |layer|
      invariant i == 2 * |next| && |next| <= |all|
      invariant next == all[..|next|]
      decreases |layer| - i
    {
      var left := layer[i];
      var right := if i + 1 < |layer| then layer[i + 1] else left;
      assert all[|next|] == h(left + ":" + right);
      next := next + [h(left + ":" + right)];
      i := i + 2;
    }
  }

  ghost predicate Verifies(h: string -> string, proof: Proof) {
    Climb(DagScheme(h), h(proof.leafHash), proof.path) == proof.rootHash
  }

  method VerifyMerkleProof(h: string -> string, proof: Proof) returns (ok: bool)
    ensures ok <==> Verifies(h, proof)
  {
    ghost var s := DagScheme(h);
    var hash := h(proof.leafHash);
    var k := 0;
    while k < |proof.path|
      invariant k <= |proof.path|
      invariant Climb(s, hash, proof.path[k..]) == Climb(s, h(proof.leafHash), proof.path)
    {
      var step := proof.path[k];
      assert proof.path[k..][0] == step && proof.path[k..][1..] == proof.path[k + 1..];
      if step.side == Left {
        hash := h(step.siblingHash + ":" + hash);
      } else {
        hash := h(hash + ":" + step.siblingHash);
      }
      k := k + 1;
    }
    return hash == proof.rootHash;
  }

  method BuildMerkleProofFromLeaves(h: string -> string, rawLeaves: seq<string>, targetIndex: int)
    returns (r: Result<Proof, string>)
    ensures r.Failure? <==> !(0 <= targetIndex < |rawLeaves|)
    ensures r.Failure? ==> r.error == "merkle-target-out-of-range"
    ensures r.Success? ==> r.value == BuiltProof(h, rawLeaves, targetIndex)
  {
    if targetIndex < 0 || targetIndex >= |rawLeaves| {
      return Failure("merkle-target-out-of-range");
    }
    ghost var s := DagScheme(h);
    var layer := seq(|rawLeaves|, i requires 0 <= i < |rawLeaves| => h(rawLeaves[i]));
    var idx: nat := targetIndex;
    var path: seq<Step> := [];
    ghost var whole := PathTo(s, LeafLayer(s, rawLeaves), idx);
    assert layer == LeafLayer(s, rawLeaves);
    while |layer| > 1
      invariant idx < |layer|
      invariant Fold(s, layer) == Root(s, rawLeaves)
      invariant path + PathTo(s, layer, idx) == whole
      decreases |layer|
    {
      var isRight := idx % 2 == 1;
      var siblingIndex := if isRight then idx - 1 else idx + 1;
      var siblingHash := if siblingIndex < |layer| then layer[siblingIndex] else layer[idx];
      PathGrows(s, layer, idx, path);
      path := path + [Step(siblingHash, if isRight then Left else Right)];
      layer := PairUp(h, layer);
      idx := idx / 2;
    }
    assert path == whole;
    return Success(Proof(rawLeaves[targetIndex], path, layer[0]));
  }

  function BuiltProof(h: string -> string, leaves: seq<string>, i: nat): Proof
    requires i < |leaves|
  {
    var s := DagScheme(h);
    Proof(leaves[i], PathTo(s, LeafLayer(s, leaves), i), Root(s, leaves))
  }

  // ----- What a proof proves -----

  /** Every built proof verifies, and its path has the least k with 2^k >= n steps. */
  lemma ProofComplete(h: string -> string, leaves: seq<string>, i: nat)
    requires i < |leaves|
    ensures Verifies(h, BuiltProof(h, leaves, i))
    ensures var k := |BuiltProof(h, leaves, i).path|;
            |leaves| <= Pow2(k) && forall m: nat | m < k :: Pow2(m) < |leaves|
  {
    var s := DagScheme(h);
    PathClimbs(s, LeafLayer(s, leaves), i);
    DepthIsLeast(|leaves|);
  }

  /** A verifying proof of full length names the leaf its side bits lead to, padding included; when the bits
      spell a real position, it is the built proof and no other. */
  lemma ProofSound(h: string -> string, leaves: seq<string>, proof: Proof)
    requires HexDigest(h) && |leaves| > 0
    requires proof.rootHash == Root(DagScheme(h), leaves)
    requires |proof.path| == Depth(|leaves|)
    requires Verifies(h, proof)
    ensures proof.leafHash == leaves[Source(|leaves|, Position(proof.path))]
    ensures Position(proof.path) < |leaves| ==> proof == BuiltProof(h, leaves, Position(proof.path))
  {
    var s := DagScheme(h);
    DagCollisionFree(h);
    ClimbDeterminesNode(s, LeafLayer(s, leaves), h(proof.leafHash), proof.path);
    if Position(proof.path) < |leaves| {
      ClimbDeterminesPath(s, LeafLayer(s, leaves), h(proof.leafHash), proof.path);
      SourceOfPresent(|leaves|, Position(proof.path));
    }
  }

  /** Among leaves that are digests themselves, as the archive's are, the length need not be checked. */
  lemma ProofSoundForDigestLeaves(h: string -> string, leaves: seq<string>, proof: Proof)
    requires HexDigest(h) && |leaves| > 0
    requires (forall x | x in leaves :: Plain(x)) && Plain(proof.leafHash)
    requires proof.rootHash == Root(DagScheme(h), leaves)
    requires Verifies(h, proof)
    ensures |proof.path| == Depth(|leaves|) && proof.leafHash in leaves
  {
    DagCollisionFree(h);
    DigestIsNoInnerNode(h, proof.leafHash);
    forall x | x in leaves ensures !IsNode(DagScheme(h), h(x)) { DigestIsNoInnerNode(h, x); }
    FullLength(DagScheme(h), LeafLayer(DagScheme(h), leaves), h(proof.leafHash), proof.path);
    ProofSound(h, leaves, proof);
  }

  lemma DigestIsNoInnerNode(h: string -> string, x: string)
    requires HexDigest(h) && Plain(x)
    ensures !IsNode(DagScheme(h), h(x))
  {
    forall a, b ensures h(x) != DagScheme(h).node(a, b) {
      assert (a + ":" + b)[|a|] == ':';
    }
  }

  /** Where neither the start nor any leaf is an inner node, only paths of full length reach the root. */
  lemma FullLength(s: Scheme, layer: seq<string>, hash: string, path: seq<Step>)
    requires CollisionFree(s) && |layer| > 0 && PlainLayer(layer)
    requires !IsNode(s, hash) && forall i | 0 <= i < |layer| :: !IsNode(s, layer[i])
    requires Climb(s, hash, path) == Fold(s, layer)
    ensures |path| == Depth(|layer|)
  {
    if |path| < Depth(|layer|) {
      ShortPathStartsInside(s, layer, hash, path);
    } else if |path| > Depth(|layer|) {
      LongPathEndsInside(s, layer, hash, path);
    }
  }

  lemma {:induction false} LongPathEndsInside(s: Scheme, layer: seq<string>, hash: string, path: seq<Step>)
    requires CollisionFree(s) && |layer| > 0 && PlainLayer(layer)
    requires |path| > Depth(|layer|)
    requires Climb(s, hash, path) == Fold(s, layer)
    ensures exists i :: 0 <= i < |layer| && IsNode(s, layer[i])
    decreases |path|
  {
    var up := Combine(s, hash, path[0]);
    if |path| == Depth(|layer|) + 1 {
      ClimbDeterminesNode(s, layer, up, path[1..]);
    } else {
      LongPathEndsInside(s, layer, up, path[1..]);
    }
  }

  // ----- What a root says about its leaves -----

  /** Among lists of one length the root decides the leaves. */
  lemma DagRootsBindLeaves(h: string -> string, a: seq<string>, b: seq<string>)
    requires HexDigest(h) && |a| == |b|
    ensures Root(DagScheme(h), a) == Root(DagScheme(h), b) <==> a == b
  {
    DagCollisionFree(h);
    if Root(DagScheme(h), a) == Root(DagScheme(h), b) { EqualRootsOfEqualLength(DagScheme(h), a, b); }
  }

  /** A leaf that reads neither as an inner pair nor as the text hashed for no leaves. */
  ghost predicate OrdinaryLeaf(leaf: string) {
    Plain(leaf) && leaf != "EMPTY"
  }

  /** Among ordinary leaves, lists of any lengths share a root exactly when padding makes one tree of them. */
  lemma DagRootsExactly(h: string -> string, a: seq<string>, b: seq<string>)
    requires HexDigest(h)
    requires (forall x | x in a :: OrdinaryLeaf(x)) && forall x | x in b :: OrdinaryLeaf(x)
    ensures Root(DagScheme(h), a) == Root(DagScheme(h), b) <==> SamePaddedTree(a, b)
  {
    DagCollisionFree(h);
    OrdinaryLeavesApart(h, a);
    OrdinaryLeavesApart(h, b);
    EqualRootsExactly(DagScheme(h), a, b);
  }

  lemma OrdinaryLeavesApart(h: string -> string, leaves: seq<string>)
    requires HexDigest(h)
    requires forall x | x in leaves :: OrdinaryLeaf(x)
    ensures DomainsApart(DagScheme(h), leaves)
  {
    DigestIsNoInnerNode(h, "EMPTY");
    forall i | 0 <= i < |leaves| ensures LeafApart(DagScheme(h), leaves[i]) {
      assert OrdinaryLeaf(leaves[i]);
      DigestIsNoInnerNode(h, leaves[i]);
    }
  }

  /** The rest of the roots that are shared: by padding, by a pair read as a leaf, by the text for no leaves. */
  lemma DagRootsOfOtherLengths(h: string -> string, x: string, y: string, odd: seq<string>)
    requires |odd| >= 3 && |odd| % 2 == 1
    ensures Root(DagScheme(h), odd + [odd[|odd| - 1]]) == Root(DagScheme(h), odd)
    ensures Root(DagScheme(h), [h(x) + ":" + h(y)]) == Root(DagScheme(h), [x, y])
    ensures Root(DagScheme(h), []) == Root(DagScheme(h), ["EMPTY"])
  {
    var s := DagScheme(h);
    DuplicatedLastLeaf(s, odd);
    assert NextLayer(s, LeafLayer(s, [x, y])) == LeafLayer(s, [h(x) + ":" + h(y)]);
  }
}
