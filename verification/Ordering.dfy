/** The order SQLite compares text and rows by. */
module Ordering {
  import opened Sorting

  /** Binary collation: character by character, a prefix first. */
  predicate TextLeq(a: string, b: string) {
    if a == "" then true
    else if b == "" then false
    else if a[0] != b[0] then a[0] < b[0]
    else TextLeq(a[1..], b[1..])
  }

  lemma {:induction false} TextTotal(a: string, b: string)
    ensures TextLeq(a, b) || TextLeq(b, a)
    ensures TextLeq(a, b) && TextLeq(b, a) ==> a == b
  {
    if a != "" && b != "" && a[0] == b[0] {
      TextTotal(a[1..], b[1..]);
      assert a == [a[0]] + a[1..] && b == [b[0]] + b[1..];
    }
  }

  /** The texts first differ at `k`, where `a` has the smaller character. */
  predicate SmallerAt(a: string, b: string, k: nat) {
    k < |a| && k < |b| && a[..k] == b[..k] && a[k] < b[k]
  }

  lemma SmallerAtNext(x: char, a: string, b: string, k: nat)
    ensures SmallerAt([x] + a, [x] + b, k + 1) <==> SmallerAt(a, b, k)
  {
    if k < |a| && k < |b| {
      assert ([x] + a)[..k + 1] == [x] + a[..k] && ([x] + b)[..k + 1] == [x] + b[..k];
      assert ([x] + a)[..k + 1][1..] == a[..k] && ([x] + b)[..k + 1][1..] == b[..k];
    }
  }

  /** One text comes no later than another exactly if it is a prefix of it or has the smaller character where they first
      differ. */
  lemma {:induction false} TextLeqExactly(a: string, b: string)
    ensures TextLeq(a, b) <==> a <= b || exists k :: SmallerAt(a, b, k)
  {
    if a != "" && b != "" && a[0] == b[0] {
      var s, t := a[1..], b[1..];
      TextLeqExactly(s, t);
      assert a == [a[0]] + s && b == [a[0]] + t;
      if k: nat :| SmallerAt(s, t, k) { SmallerAtNext(a[0], s, t, k); }
      if k: nat :| SmallerAt(a, b, k) {
        assert k != 0;
        SmallerAtNext(a[0], s, t, k - 1);
      }
    } else if a != "" && b != "" && a[0] < b[0] {
      assert SmallerAt(a, b, 0);
    }
  }

  lemma {:induction false} TextTransitive(a: string, b: string, c: string)
    requires TextLeq(a, b) && TextLeq(b, c)
    ensures TextLeq(a, c)
  {
    if a != "" && a[0] == b[0] == c[0] { TextTransitive(a[1..], b[1..], c[1..]); }
  }

  /** A row with the columns it is listed by. */
  datatype Leaf = Leaf(archivedAt: int, id: string, hash: string)

  /** ORDER BY archived_at ASC, id ASC; the digest only makes the order total on rows that cannot coexist. */
  predicate LeafLeq(a: Leaf, b: Leaf) {
    if a.archivedAt != b.archivedAt then a.archivedAt < b.archivedAt
    else if a.id != b.id then TextLeq(a.id, b.id)
    else TextLeq(a.hash, b.hash)
  }

  lemma LeafOrder()
    ensures TotalOrder(LeafLeq)
  {
    forall a, b ensures LeafLeq(a, b) || LeafLeq(b, a) { LeafTotal(a, b); }
    forall a, b | LeafLeq(a, b) && LeafLeq(b, a) ensures a == b { LeafTotal(a, b); }
    forall a, b, c | LeafLeq(a, b) && LeafLeq(b, c) ensures LeafLeq(a, c) { LeafTransitive(a, b, c); }
  }

  lemma LeafTotal(a: Leaf, b: Leaf)
    ensures LeafLeq(a, b) || LeafLeq(b, a)
    ensures LeafLeq(a, b) && LeafLeq(b, a) ==> a == b
  {
    TextTotal(a.id, b.id);
    TextTotal(a.hash, b.hash);
  }

  lemma LeafTransitive(a: Leaf, b: Leaf, c: Leaf)
    requires LeafLeq(a, b) && LeafLeq(b, c)
    ensures LeafLeq(a, c)
  {
    if a.archivedAt == b.archivedAt == c.archivedAt {
      if a.id == b.id == c.id {
        TextTransitive(a.hash, b.hash, c.hash);
      } else if a.id != b.id && b.id != c.id {
        TextTransitive(a.id, b.id, c.id);
        TextTotal(a.id, b.id);
      }
    }
  }
}
