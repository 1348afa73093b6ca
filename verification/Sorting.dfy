/**
 * Sorting by a comparison function, as JavaScript's stable `sort` does it, and listing a set in ascending
 * order, as SQL's ORDER BY over distinct rows does it.
 */
module Sorting {

  /** The comparison is a total preorder: consistent, but possibly calling different values equal. */
  ghost predicate Comparison<T(!new)>(cmp: (T, T) -> int) {
    && (forall a, b :: cmp(a, b) <= 0 <==> cmp(b, a) >= 0)
    && (forall a, b, c :: cmp(a, b) <= 0 && cmp(b, c) <= 0 ==> cmp(a, c) <= 0)
  }

  ghost predicate Sorted<T>(cmp: (T, T) -> int, s: seq<T>) {
    forall i | 0 <= i < |s| - 1 :: cmp(s[i], s[i + 1]) <= 0
  }

  lemma {:induction false} SortedPairs<T(!new)>(cmp: (T, T) -> int, s: seq<T>, i: nat, j: nat)
    requires Comparison(cmp) && Sorted(cmp, s) && i <= j < |s|
    ensures cmp(s[i], s[j]) <= 0
  {
    if i < j { SortedPairs(cmp, s, i, j - 1); }
  }

  function Insert<T>(cmp: (T, T) -> int, x: T, s: seq<T>): seq<T> {
    if s == [] then [x]
    else if cmp(x, s[0]) <= 0 then [x] + s
    else [s[0]] + Insert(cmp, x, s[1..])
  }

  /** The stable sort: an element goes before the later ones it is not greater than. */
  function StableSort<T>(cmp: (T, T) -> int, s: seq<T>): (r: seq<T>)
    ensures |r| == |s|
  {
    if s == [] then [] else
      InsertLength(cmp, s[0], StableSort(cmp, s[1..]));
      Insert(cmp, s[0], StableSort(cmp, s[1..]))
  }

  lemma {:induction false} InsertLength<T>(cmp: (T, T) -> int, x: T, s: seq<T>)
    ensures |Insert(cmp, x, s)| == |s| + 1
  {
    if s != [] && cmp(x, s[0]) > 0 { InsertLength(cmp, x, s[1..]); }
  }

  lemma {:induction false} InsertAdds<T(!new)>(cmp: (T, T) -> int, x: T, s: seq<T>)
    ensures multiset(Insert(cmp, x, s)) == multiset(s) + multiset{x}
  {
    if s != [] && cmp(x, s[0]) > 0 {
      InsertAdds(cmp, x, s[1..]);
      assert s == [s[0]] + s[1..];
    }
  }

  lemma {:induction false} InsertKeepsSorted<T(!new)>(cmp: (T, T) -> int, x: T, s: seq<T>)
    requires Comparison(cmp) && Sorted(cmp, s)
    ensures Sorted(cmp, Insert(cmp, x, s))
    ensures Insert(cmp, x, s)[0] == x || (s != [] && Insert(cmp, x, s)[0] == s[0])
  {
    if s != [] && cmp(x, s[0]) > 0 {
      InsertKeepsSorted(cmp, x, s[1..]);
      assert cmp(s[0], x) <= 0;
    }
  }

  lemma {:induction false} SortSorts<T(!new)>(cmp: (T, T) -> int, s: seq<T>)
    requires Comparison(cmp)
    ensures Sorted(cmp, StableSort(cmp, s))
    ensures multiset(StableSort(cmp, s)) == multiset(s)
  {
    if s != [] {
      SortSorts(cmp, s[1..]);
      InsertKeepsSorted(cmp, s[0], StableSort(cmp, s[1..]));
      InsertAdds(cmp, s[0], StableSort(cmp, s[1..]));
      assert s == [s[0]] + s[1..];
    }
  }

  /** The elements that the comparison does not tell from `x`, in the order they come in. */
  function Ties<T>(cmp: (T, T) -> int, x: T, s: seq<T>): seq<T> {
    if s == [] then [] else (if cmp(s[0], x) == 0 then [s[0]] else []) + Ties(cmp, x, s[1..])
  }

  lemma NotBothTied<T(!new)>(cmp: (T, T) -> int, x: T, a: T, b: T)
    requires Comparison(cmp) && cmp(b, a) > 0
    ensures cmp(a, x) != 0 || cmp(b, x) != 0
  {
    assert cmp(x, a) <= 0 <==> cmp(a, x) >= 0;
  }

  lemma TiesOfCons<T>(cmp: (T, T) -> int, x: T, a: T, s: seq<T>)
    ensures Ties(cmp, x, [a] + s) == (if cmp(a, x) == 0 then [a] else []) + Ties(cmp, x, s)
  {
    assert ([a] + s)[1..] == s;
  }

  lemma TiesMeet<T>(cmp: (T, T) -> int, x: T, a: T, b: T, s: seq<T>, inserted: seq<T>)
    requires cmp(a, x) != 0 || cmp(b, x) != 0
    requires Ties(cmp, x, inserted) == (if cmp(b, x) == 0 then [b] else []) + Ties(cmp, x, s)
    ensures Ties(cmp, x, [a] + inserted) == (if cmp(b, x) == 0 then [b] else []) + Ties(cmp, x, [a] + s)
  {
    TiesOfCons(cmp, x, a, inserted);
    TiesOfCons(cmp, x, a, s);
  }

  lemma {:induction false} InsertBeforeTies<T(!new)>(cmp: (T, T) -> int, x: T, y: T, s: seq<T>)
    requires Comparison(cmp)
    ensures Ties(cmp, x, Insert(cmp, y, s)) == (if cmp(y, x) == 0 then [y] else []) + Ties(cmp, x, s)
  {
    if s == [] || cmp(y, s[0]) <= 0 {
      TiesOfCons(cmp, x, y, s);
      assert [y] + s == Insert(cmp, y, s);
    } else {
      InsertBeforeTies(cmp, x, y, s[1..]);
      NotBothTied(cmp, x, s[0], y);
      TiesMeet(cmp, x, s[0], y, s[1..], Insert(cmp, y, s[1..]));
      assert [s[0]] + s[1..] == s;
    }
  }

  /** Elements that the comparison ties keep their order. */
  lemma {:induction false} SortIsStable<T(!new)>(cmp: (T, T) -> int, x: T, s: seq<T>)
    requires Comparison(cmp)
    ensures Ties(cmp, x, StableSort(cmp, s)) == Ties(cmp, x, s)
  {
    if s != [] {
      SortIsStable(cmp, x, s[1..]);
      InsertBeforeTies(cmp, x, s[0], StableSort(cmp, s[1..]));
    }
  }

  /** Sorting what is sorted changes nothing. */
  lemma {:induction false} SortOfSorted<T>(cmp: (T, T) -> int, s: seq<T>)
    requires Sorted(cmp, s)
    ensures StableSort(cmp, s) == s
  {
    if s != [] {
      forall i | 0 <= i < |s[1..]| - 1 ensures cmp(s[1..][i], s[1..][i + 1]) <= 0 { assert cmp(s[i + 1], s[i + 2]) <= 0; }
      SortOfSorted(cmp, s[1..]);
      assert [s[0]] + s[1..] == s;
    }
  }

  // ----- Sorted lists of the same elements -----

  function CountBelow<T>(cmp: (T, T) -> int, x: T, s: seq<T>): nat {
    if s == [] then 0 else (if cmp(s[0], x) < 0 then 1 else 0) + CountBelow(cmp, x, s[1..])
  }

  lemma {:induction false} CountBelowSplit<T>(cmp: (T, T) -> int, x: T, s: seq<T>, k: nat)
    requires k <= |s|
    ensures CountBelow(cmp, x, s) == CountBelow(cmp, x, s[..k]) + CountBelow(cmp, x, s[k..])
  {
    if k == 0 {
      assert s[..k] == [] && s[k..] == s;
    } else {
      CountBelowSplit(cmp, x, s[1..], k - 1);
      assert s[..k][1..] == s[1..][..k - 1] && s[1..][k - 1..] == s[k..];
    }
  }

  function Without<T>(s: seq<T>, k: nat): seq<T>
    requires k < |s|
  {
    if k == 0 then s[1..] else [s[0]] + Without(s[1..], k - 1)
  }

  lemma {:induction false} CountBelowWithout<T>(cmp: (T, T) -> int, x: T, s: seq<T>, k: nat)
    requires k < |s|
    ensures CountBelow(cmp, x, s) == (if cmp(s[k], x) < 0 then 1 else 0) + CountBelow(cmp, x, Without(s, k))
  {
    if k > 0 {
      CountBelowWithout(cmp, x, s[1..], k - 1);
      assert Without(s, k)[1..] == Without(s[1..], k - 1);
    }
  }

  lemma {:induction false} WithoutIs<T>(s: seq<T>, k: nat)
    requires k < |s|
    ensures Without(s, k) == s[..k] + s[k + 1..]
  {
    if k > 0 {
      WithoutIs(s[1..], k - 1);
      assert [s[0]] + s[1..][..k - 1] == s[..k] && s[1..][k..] == s[k + 1..];
    }
  }

  lemma MiddleOut<T>(a: seq<T>, x: T, b: seq<T>)
    ensures multiset(a + b) == multiset(a + ([x] + b)) - multiset{x}
  {
    assert multiset(a + ([x] + b)) == multiset(a) + (multiset{x} + multiset(b));
  }

  lemma WithoutRemoves<T>(s: seq<T>, k: nat)
    requires k < |s|
    ensures multiset(Without(s, k)) == multiset(s) - multiset{s[k]}
    ensures |Without(s, k)| == |s| - 1
  {
    WithoutIs(s, k);
    SplitAt(s, k);
    MiddleOut(s[..k], s[k], s[k + 1..]);
  }

  lemma SplitAt<T>(s: seq<T>, k: nat)
    requires k < |s|
    ensures s == s[..k] + ([s[k]] + s[k + 1..])
  {
  }

  lemma {:induction false} CountBelowOfPermutation<T>(cmp: (T, T) -> int, x: T, s: seq<T>, t: seq<T>)
    requires multiset(s) == multiset(t)
    ensures CountBelow(cmp, x, s) == CountBelow(cmp, x, t)
    decreases |s|
  {
    if s == [] {
      assert |t| == |multiset(t)| == 0;
    } else {
      assert s[0] in multiset(t);
      var k :| 0 <= k < |t| && t[k] == s[0];
      CountBelowWithout(cmp, x, t, k);
      CountBelowWithout(cmp, x, s, 0);
      WithoutRemoves(t, k);
      WithoutRemoves(s, 0);
      CountBelowOfPermutation(cmp, x, Without(s, 0), Without(t, k));
    }
  }

  lemma {:induction false} CountBelowBounds<T(!new)>(cmp: (T, T) -> int, x: T, s: seq<T>)
    ensures CountBelow(cmp, x, s) <= |s|
    ensures (forall i | 0 <= i < |s| :: cmp(s[i], x) < 0) ==> CountBelow(cmp, x, s) == |s|
    ensures (forall i | 0 <= i < |s| :: cmp(s[i], x) >= 0) ==> CountBelow(cmp, x, s) == 0
  {
    if s != [] { CountBelowBounds(cmp, x, s[1..]); }
  }

  /** Two sorted lists of the same elements agree position by position, up to elements the comparison ties. */
  lemma SortedPermutationsTie<T(!new)>(cmp: (T, T) -> int, s: seq<T>, t: seq<T>, k: nat)
    requires Comparison(cmp) && Sorted(cmp, s) && Sorted(cmp, t) && multiset(s) == multiset(t)
    requires k < |s|
    ensures |s| == |t| && cmp(s[k], t[k]) == 0
  {
    assert |s| == |multiset(s)| == |multiset(t)| == |t|;
    if cmp(s[k], t[k]) != 0 {
      CountBelowOfPermutation(cmp, t[k], s, t);
      CountBelowOfPermutation(cmp, s[k], s, t);
      if cmp(s[k], t[k]) < 0 { MoreBelow(cmp, s, t, k); } else { MoreBelow(cmp, t, s, k); }
    }
  }

  lemma MoreBelow<T(!new)>(cmp: (T, T) -> int, s: seq<T>, t: seq<T>, k: nat)
    requires Comparison(cmp) && Sorted(cmp, s) && Sorted(cmp, t)
    requires k < |s| && k < |t| && cmp(s[k], t[k]) < 0
    ensures CountBelow(cmp, t[k], s) > CountBelow(cmp, t[k], t)
  {
    PrefixBelow(cmp, s, k, t[k]);
    SuffixNotBelow(cmp, t, k);
  }

  lemma PrefixBelow<T(!new)>(cmp: (T, T) -> int, s: seq<T>, k: nat, x: T)
    requires Comparison(cmp) && Sorted(cmp, s) && k < |s| && cmp(s[k], x) < 0
    ensures CountBelow(cmp, x, s) > k
  {
    CountBelowSplit(cmp, x, s, k + 1);
    forall i | 0 <= i < k + 1 ensures cmp(s[i], x) < 0 {
      SortedPairs(cmp, s, i, k);
    }
    CountBelowBounds(cmp, x, s[..k + 1]);
  }

  lemma SuffixNotBelow<T(!new)>(cmp: (T, T) -> int, t: seq<T>, k: nat)
    requires Comparison(cmp) && Sorted(cmp, t) && k < |t|
    ensures CountBelow(cmp, t[k], t) <= k
  {
    CountBelowSplit(cmp, t[k], t, k);
    forall i | k <= i < |t| ensures cmp(t[i], t[k]) >= 0 { SortedPairs(cmp, t, k, i); }
    CountBelowBounds(cmp, t[k], t[k..]);
    CountBelowBounds(cmp, t[k], t[..k]);
  }

  /** Any two positions can be listed first. */
  lemma TwoInFront<T>(s: seq<T>, i: nat, j: nat) returns (rest: seq<T>)
    requires i < |s| && j < |s| && s[i] != s[j]
    ensures multiset([s[i], s[j]] + rest) == multiset(s)
    ensures multiset([s[j], s[i]] + rest) == multiset(s)
  {
    var without, all := Without(s, i), multiset(s);
    WithoutRemoves(s, i);
    assert s[j] in multiset(without) by { assert s[i] in all && s[j] in all; }
    var k :| 0 <= k < |without| && without[k] == s[j];
    WithoutRemoves(without, k);
    rest := Without(without, k);
    PutBack(all, s[i], s[j]);
    MultisetOfFirstTwo(s[i], s[j], rest);
    MultisetOfFirstTwo(s[j], s[i], rest);
  }

  lemma PutBack<T>(m: multiset<T>, a: T, b: T)
    requires a in m && b in m && a != b
    ensures m - multiset{a} - multiset{b} + multiset{a} + multiset{b} == m
    ensures m - multiset{a} - multiset{b} + multiset{b} + multiset{a} == m
  {
  }

  lemma MultisetOfFirstTwo<T>(a: T, b: T, rest: seq<T>)
    ensures multiset([a, b] + rest) == multiset(rest) + multiset{a} + multiset{b}
  {
  }

  // ----- Ascending listings of sets -----

  ghost predicate TotalOrder<T(!new)>(leq: (T, T) -> bool) {
    && (forall a, b :: leq(a, b) || leq(b, a))
    && (forall a, b :: leq(a, b) && leq(b, a) ==> a == b)
    && (forall a, b, c :: leq(a, b) && leq(b, c) ==> leq(a, c))
  }

  lemma {:induction false} LeastExists<T(!new)>(leq: (T, T) -> bool, s: set<T>)
    requires TotalOrder(leq) && s != {}
    ensures exists m :: m in s && forall x | x in s :: leq(m, x)
  {
    var a :| a in s;
    var rest := s - {a};
    if rest == {} {
      assert s == {a};
    } else {
      LeastExists(leq, rest);
      var m :| m in rest && forall x | x in rest :: leq(m, x);
      if leq(a, m) {
        forall x | x in s ensures leq(a, x) { assert x == a || leq(m, x); }
      } else {
        forall x | x in s ensures leq(m, x) { assert x == a || x in rest; }
      }
    }
  }

  /** ORDER BY: the elements of a set in ascending order. */
  function Ascending<T(==, !new)>(leq: (T, T) -> bool, s: set<T>): (r: seq<T>)
    requires TotalOrder(leq)
    ensures |r| == |s|
    ensures forall x :: x in r <==> x in s
    ensures forall i, j | 0 <= i < j < |r| :: r[i] != r[j] && leq(r[i], r[j])
  {
    if s == {} then [] else
      LeastExists(leq, s);
      var m :| m in s && forall x | x in s :: leq(m, x);
      [m] + Ascending(leq, s - {m})
  }

  ghost predicate Ascends<T(!new)>(leq: (T, T) -> bool, r: seq<T>) {
    forall i, j | 0 <= i < j < |r| :: r[i] != r[j] && leq(r[i], r[j])
  }

  /** A set is listed in ascending order in one way only. */
  lemma {:induction false} OneListing<T(!new)>(leq: (T, T) -> bool, a: seq<T>, b: seq<T>)
    requires TotalOrder(leq) && Ascends(leq, a) && Ascends(leq, b) && |a| == |b| && forall x :: x in a <==> x in b
    ensures a == b
    decreases |a|
  {
    if a != [] {
      assert a[0] in a && a[0] in b;
      assert b[0] in b && b[0] in a;
      assert leq(a[0], b[0]) && leq(b[0], a[0]);
      SameTails(leq, a, b);
      OneListing(leq, a[1..], b[1..]);
      assert a == [a[0]] + a[1..] && b == [b[0]] + b[1..];
    }
  }

  lemma SameTails<T(!new)>(leq: (T, T) -> bool, a: seq<T>, b: seq<T>)
    requires Ascends(leq, a) && Ascends(leq, b) && (forall x :: x in a <==> x in b) && a != [] && b != [] && a[0] == b[0]
    ensures Ascends(leq, a[1..]) && Ascends(leq, b[1..]) && forall x :: x in a[1..] <==> x in b[1..]
  {
    InTail(leq, a);
    InTail(leq, b);
  }

  lemma InTail<T(!new)>(leq: (T, T) -> bool, r: seq<T>)
    requires Ascends(leq, r) && r != []
    ensures forall x :: x in r[1..] <==> x in r && x != r[0]
  {
    assert r == [r[0]] + r[1..];
    forall x | x in r[1..] ensures x != r[0] {
      var i :| 0 <= i < |r[1..]| && r[1..][i] == x;
      assert r[i + 1] == x;
    }
  }

  lemma AppendedAscends<T(!new)>(leq: (T, T) -> bool, r: seq<T>, x: T)
    requires Ascends(leq, r) && forall y | y in r :: y != x && leq(y, x)
    ensures Ascends(leq, r + [x])
  {
    var more := r + [x];
    forall i, j | 0 <= i < j < |more| ensures more[i] != more[j] && leq(more[i], more[j]) {
      assert more[i] == r[i] && r[i] in r;
    }
  }

  /** A new greatest element is listed last. */
  lemma AscendingAppend<T(!new)>(leq: (T, T) -> bool, s: set<T>, x: T)
    requires TotalOrder(leq) && x !in s && forall y | y in s :: leq(y, x)
    ensures Ascending(leq, s + {x}) == Ascending(leq, s) + [x]
  {
    var all, more := Ascending(leq, s), Ascending(leq, s + {x});
    AppendedAscends(leq, all, x);
    AddOne(s, x);
    OneListing(leq, more, all + [x]);
  }

  lemma AddOne<T>(s: set<T>, x: T)
    requires x !in s
    ensures |s + {x}| == |s| + 1
  {
  }
}
