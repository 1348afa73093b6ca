/** The seal package's Merkle root, which separates the domains of leaves and inner nodes. */
module SealMerkle {
  import opened Hashing
  import opened MerkleTree

  function SealScheme(h: string -> string): Scheme {
    Scheme(value => h("leaf:" + value), (left, right) => h("node:" + left + ":" + right), h("merkle:empty"))
  }

  /** The prefixes keep the domains apart whatever the leaves are. */
  lemma SealSchemeSound(h: string -> string, leaves: seq<string>)
    requires HexDigest(h)
    ensures CollisionFree(SealScheme(h)) && DomainsApart(SealScheme(h), leaves)
  {
    var s := SealScheme(h);
    forall x, y | s.leaf(x) == s.leaf(y) ensures x == y {
      PrefixInjective("leaf:", x, y);
    }
    forall a, b, c, d | Plain(c) && Plain(d) && s.node(a, b) == s.node(c, d) ensures a == c && b == d {
      NodeInjective(a, b, c, d);
    }
    PrefixesApart(h);
    assert forall i | 0 <= i < |leaves| :: LeafApart(s, leaves[i]);
  }

  lemma NodeInjective(a: string, b: string, c: string, d: string)
    requires Plain(c) && Plain(d) && "node:" + a + ":" + b == "node:" + c + ":" + d
    ensures a == c && b == d
  {
    assert "node:" + a + ":" + b == "node:" + (a + ":" + b) && "node:" + c + ":" + d == "node:" + (c + ":" + d);
    PrefixInjective("node:", a + ":" + b, c + ":" + d);
    JoinInjective(a, b, c, d);
  }

  lemma PrefixesApart(h: string -> string)
    requires Injective(h)
    ensures !IsNode(SealScheme(h), h("merkle:empty")) && forall x :: LeafApart(SealScheme(h), x)
  {
    var s := SealScheme(h);
    forall a, b ensures s.node(a, b) != h("merkle:empty") {
      assert ("node:" + a + ":" + b)[0] == 'n' && "merkle:empty"[0] == 'm';
    }
    forall x ensures LeafApart(s, x) {
      assert ("leaf:" + x)[0] == 'l' && "merkle:empty"[0] == 'm';
      forall a, b ensures s.leaf(x) != s.node(a, b) {
        assert ("node:" + a + ":" + b)[0] == 'n';
      }
    }
  }

  method MerkleRoot(h: string -> string, values: seq<string>) returns (root: string)
    ensures root == Root(SealScheme(h), values)
  {
    if |values| == 0 { return h("merkle:empty"); }
    ghost var s := SealScheme(h);
    var level := seq(|values|, i requires 0 <= i < |values| => h("leaf:" + values[i]));
    assert level == LeafLayer(s, values);
    while |level| > 1
      invariant |level| > 0 && Fold(s, level) == Root(s, values)
      decreases |level|
    {
      ghost var all := NextLayer(s, level);
      var next := [];
      var i := 0;
      while i < |level|
        invariant i == 2 * |next| && |next| <= |all|
        invariant next == all[..|next|]
        decreases |level| - i
      {
        var left := level[i];
        var right := if i + 1 < |level| then level[i + 1] else left;
        assert all[|next|] == h("node:" + left + ":" + right);
        next := next + [h("node:" + left + ":" + right)];
        i := i + 2;
      }
      assert next == all;
      level := next;
    }
    return level[0];
  }

  /** Lists of any lengths share a root exactly when padding makes the same complete tree of them. */
  lemma SealRootsExactly(h: string -> string, a: seq<string>, b: seq<string>)
    requires HexDigest(h)
    ensures Root(SealScheme(h), a) == Root(SealScheme(h), b) <==> SamePaddedTree(a, b)
    ensures |a| == |b| ==> (Root(SealScheme(h), a) == Root(SealScheme(h), b) <==> a == b)
  {
    SealSchemeSound(h, a);
    SealSchemeSound(h, b);
    EqualRootsExactly(SealScheme(h), a, b);
    if |a| == |b| && Root(SealScheme(h), a) == Root(SealScheme(h), b) {
      EqualRootsOfEqualLength(SealScheme(h), a, b);
    }
  }

  /** Domain separation does not take the padding ambiguity away. */
  lemma SealRootsOfOtherLengths(h: string -> string, odd: seq<string>)
    requires |odd| >= 3 && |odd| % 2 == 1
    ensures Root(SealScheme(h), odd + [odd[|odd| - 1]]) == Root(SealScheme(h), odd)
  {
    DuplicatedLastLeaf(SealScheme(h), odd);
  }
}
