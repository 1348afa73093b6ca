/** The channel's constitutional root: archived documents sorted, labelled and hashed into one root. */
module ChannelMerkle {
  import opened Hashing
  import opened MerkleTree
  import opened MerkleDag
  import opened Sorting

  datatype Document = Document(id: string, archivedAt: string)

  /** `localeCompare` by archive time, then by id; `locale` is the runtime's collation. */
  function CompareDocuments(locale: (string, string) -> int, a: Document, b: Document): int {
    var byTime := locale(a.archivedAt, b.archivedAt);
    if byTime != 0 then byTime else locale(a.id, b.id)
  }

  function ByTimeAndId(locale: (string, string) -> int): (Document, Document) -> int {
    (a, b) => CompareDocuments(locale, a, b)
  }

  function Label(d: Document): string {
    d.archivedAt + ":" + d.id
  }

  function Labels(docs: seq<Document>): (labels: seq<string>)
    ensures |labels| == |docs| && forall i | 0 <= i < |docs| :: labels[i] == Label(docs[i])
  {
    seq(|docs|, i requires 0 <= i < |docs| => Label(docs[i]))
  }

  function ConstitutionalRoot(h: string -> string, locale: (string, string) -> int, docs: seq<Document>): string {
    Root(DagScheme(h), Labels(StableSort(ByTimeAndId(locale), docs)))
  }

  method MerkleRoot(h: string -> string, items: seq<string>) returns (root: string)
    ensures root == Root(DagScheme(h), items)
  {
    if |items| == 0 { return h("EMPTY"); }
    ghost var s := DagScheme(h);
    var layer := seq(|items|, i requires 0 <= i < |items| => h(items[i]));
    assert layer == LeafLayer(s, items);
    while |layer| > 1
      invariant |layer| > 0 && Fold(s, layer) == Root(s, items)
      decreases |layer|
    {
      ghost var all := NextLayer(s, layer);
      var next := [];
      var i := 0;
      while i < |layer|
        invariant i == 2 * |next| && |next| <= |all|
        invariant next == all[..|next|]
        decreases |layer| - i
      {
        var left := layer[i];
        var right := if i + 1 < |layer| then layer[i + 1] else left;
        assert all[|next|] == h(left + ":" + right);
        next := next + [h(left + ":" + right)];
        i := i + 2;
      }
      assert next == all;
      layer := next;
    }
    return layer[0];
  }

  method ConstitutionalMerkleRoot(h: string -> string, locale: (string, string) -> int, docs: seq<Document>)
    returns (root: string)
    ensures root == ConstitutionalRoot(h, locale, docs)
  {
    root := MerkleRoot(h, Labels(StableSort(ByTimeAndId(locale), docs)));
  }

  // ----- When the root does not depend on the order the documents are listed in -----

  lemma DocumentComparison(locale: (string, string) -> int)
    requires Comparison(locale)
    ensures Comparison(ByTimeAndId(locale))
  {
    forall a: Document, b: Document, c: Document
      | CompareDocuments(locale, a, b) <= 0 && CompareDocuments(locale, b, c) <= 0
      ensures CompareDocuments(locale, a, c) <= 0
    {
      assert locale(a.archivedAt, b.archivedAt) <= 0 && locale(b.archivedAt, c.archivedAt) <= 0;
      assert locale(a.archivedAt, c.archivedAt) <= 0;
      if locale(a.archivedAt, c.archivedAt) == 0 {
        assert locale(b.archivedAt, a.archivedAt) <= 0 && locale(c.archivedAt, b.archivedAt) <= 0;
      }
    }
  }

  /** The root is that of the texts "time:id" of the documents, in an order in which none comes before one that the collation
      puts earlier by time, or by id at the same time; documents it ties stay as they were listed. */
  lemma ConstitutionalRootIs(h: string -> string, locale: (string, string) -> int, docs: seq<Document>)
    returns (order: seq<Document>, labels: seq<string>)
    requires Comparison(locale)
    ensures multiset(order) == multiset(docs) && |labels| == |order|
    ensures forall i | 0 <= i < |order| :: labels[i] == order[i].archivedAt + ":" + order[i].id
    ensures forall i, j | 0 <= i < j < |order| ::
              locale(order[i].archivedAt, order[j].archivedAt) < 0 ||
              (locale(order[i].archivedAt, order[j].archivedAt) == 0 && locale(order[i].id, order[j].id) <= 0)
    ensures forall d :: Ties(ByTimeAndId(locale), d, order) == Ties(ByTimeAndId(locale), d, docs)
    ensures ConstitutionalRoot(h, locale, docs) == Root(DagScheme(h), labels)
  {
    order := StableSort(ByTimeAndId(locale), docs);
    labels := Labels(order);
    DocumentComparison(locale);
    SortSorts(ByTimeAndId(locale), docs);
    forall i, j | 0 <= i < j < |order|
      ensures locale(order[i].archivedAt, order[j].archivedAt) < 0 ||
              (locale(order[i].archivedAt, order[j].archivedAt) == 0 && locale(order[i].id, order[j].id) <= 0)
    {
      SortedPairs(ByTimeAndId(locale), order, i, j);
    }
    forall d ensures Ties(ByTimeAndId(locale), d, order) == Ties(ByTimeAndId(locale), d, docs) {
      SortIsStable(ByTimeAndId(locale), d, docs);
    }
  }

  /** Documents the collation cannot tell apart carry the same label. */
  ghost predicate TiesShareLabels(locale: (string, string) -> int, docs: seq<Document>) {
    forall i, j | 0 <= i < |docs| && 0 <= j < |docs| && CompareDocuments(locale, docs[i], docs[j]) == 0 ::
      Label(docs[i]) == Label(docs[j])
  }

  /** The constitutional root is the same for every listing order exactly when tied documents share a label. */
  lemma OrderIndependentExactly(h: string -> string, locale: (string, string) -> int, docs: seq<Document>)
    requires HexDigest(h) && Comparison(locale)
    ensures (forall other | multiset(other) == multiset(docs) ::
               ConstitutionalRoot(h, locale, other) == ConstitutionalRoot(h, locale, docs))
       <==> TiesShareLabels(locale, docs)
  {
    if TiesShareLabels(locale, docs) {
      forall other | multiset(other) == multiset(docs)
        ensures ConstitutionalRoot(h, locale, other) == ConstitutionalRoot(h, locale, docs)
      {
        SameLabelsInAnyOrder(locale, docs, other);
      }
    } else {
      OrderShows(h, locale, docs);
    }
  }

  lemma OrderShows(h: string -> string, locale: (string, string) -> int, docs: seq<Document>)
    requires HexDigest(h) && Comparison(locale) && !TiesShareLabels(locale, docs)
    ensures exists other :: multiset(other) == multiset(docs) &&
              ConstitutionalRoot(h, locale, other) != ConstitutionalRoot(h, locale, docs)
  {
    var i, j :| 0 <= i < |docs| && 0 <= j < |docs| && CompareDocuments(locale, docs[i], docs[j]) == 0 &&
                Label(docs[i]) != Label(docs[j]);
    var rest := TwoInFront(docs, i, j);
    var x, y := [docs[i], docs[j]] + rest, [docs[j], docs[i]] + rest;
    SwappedTieShows(h, locale, docs[i], docs[j], rest);
    assert multiset(x) == multiset(docs) && multiset(y) == multiset(docs);
  }

  lemma SameLabelsInAnyOrder(locale: (string, string) -> int, docs: seq<Document>, other: seq<Document>)
    requires Comparison(locale) && TiesShareLabels(locale, docs) && multiset(other) == multiset(docs)
    ensures Labels(StableSort(ByTimeAndId(locale), other)) == Labels(StableSort(ByTimeAndId(locale), docs))
  {
    var cmp := ByTimeAndId(locale);
    DocumentComparison(locale);
    SortSorts(cmp, docs);
    SortSorts(cmp, other);
    var s, t := StableSort(cmp, other), StableSort(cmp, docs);
    assert |s| == |multiset(s)| == |multiset(t)| == |t|;
    forall k | 0 <= k < |s| ensures Label(s[k]) == Label(t[k]) {
      SortedPermutationsTie(cmp, s, t, k);
      assert s[k] in multiset(docs) && t[k] in multiset(docs);
    }
  }

  /** Listing two tied documents with different labels the other way round changes the root. */
  lemma SwappedTieShows(h: string -> string, locale: (string, string) -> int, a: Document, b: Document, rest: seq<Document>)
    requires HexDigest(h) && Comparison(locale)
    requires CompareDocuments(locale, a, b) == 0 && Label(a) != Label(b)
    ensures ConstitutionalRoot(h, locale, [a, b] + rest) != ConstitutionalRoot(h, locale, [b, a] + rest)
  {
    SwappedTieSortsApart(locale, a, b, rest);
    DagRootsBindLeaves(h, Labels(StableSort(ByTimeAndId(locale), [a, b] + rest)),
                       Labels(StableSort(ByTimeAndId(locale), [b, a] + rest)));
  }

  lemma SwappedTieSortsApart(locale: (string, string) -> int, a: Document, b: Document, rest: seq<Document>)
    requires Comparison(locale)
    requires CompareDocuments(locale, a, b) == 0 && Label(a) != Label(b)
    ensures Labels(StableSort(ByTimeAndId(locale), [a, b] + rest)) != Labels(StableSort(ByTimeAndId(locale), [b, a] + rest))
  {
    var cmp := ByTimeAndId(locale);
    DocumentComparison(locale);
    var sorted := StableSort(cmp, rest);
    SortFirstTwo(cmp, a, b, rest);
    SortFirstTwo(cmp, b, a, rest);
    var k := InsertTied(cmp, a, b, sorted);
    assert Labels(StableSort(cmp, [a, b] + rest))[k] == Label(a);
    assert Labels(StableSort(cmp, [b, a] + rest))[k] == Label(b);
  }

  lemma SortFirstTwo(cmp: (Document, Document) -> int, a: Document, b: Document, rest: seq<Document>)
    ensures StableSort(cmp, [a, b] + rest) == Insert(cmp, a, Insert(cmp, b, StableSort(cmp, rest)))
  {
    assert ([a, b] + rest)[1..] == [b] + rest && ([b] + rest)[1..] == rest;
  }

  lemma {:induction false} InsertTied(cmp: (Document, Document) -> int, a: Document, b: Document, s: seq<Document>)
    returns (k: nat)
    requires Comparison(cmp) && cmp(a, b) == 0
    ensures k <= |s|
    ensures var x, y := Insert(cmp, a, Insert(cmp, b, s)), Insert(cmp, b, Insert(cmp, a, s));
            k < |x| == |y| && x[k] == a && y[k] == b
  {
    assert cmp(b, a) == 0;
    InsertLength(cmp, b, s);
    InsertLength(cmp, a, s);
    InsertLength(cmp, a, Insert(cmp, b, s));
    InsertLength(cmp, b, Insert(cmp, a, s));
    if s == [] || cmp(a, s[0]) <= 0 {
      assert s != [] ==> cmp(b, s[0]) <= 0;
      k := 0;
    } else {
      assert cmp(b, s[0]) > 0;
      var rest := InsertTied(cmp, a, b, s[1..]);
      assert Insert(cmp, b, s)[1..] == Insert(cmp, b, s[1..]);
      assert Insert(cmp, a, s)[1..] == Insert(cmp, a, s[1..]);
      k := rest + 1;
    }
  }
}
