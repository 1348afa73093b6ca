/** Reconciling concurrent edicts by vector clock, precedence and node id. */
module Crdt {
  import opened Wrappers
  import opened Sorting

  /** A missing entry counts as 0. */
  type VectorClock = map<string, nat>

  datatype Order = Dominates | Dominated | Concurrent | Equal

  datatype Edict = Edict(id: string, nodeId: string, precedence: int, clock: VectorClock, payload: string)

  datatype Reason = ClockDominance | Precedence | NodeId

  datatype MergeResult = MergeResult(winner: Edict, mergedClock: VectorClock, reason: Reason)

  function At(c: VectorClock, k: string): nat {
    if k in c then c[k] else 0
  }

  // ----- Clocks -----

  predicate Leq(a: VectorClock, b: VectorClock) {
    forall k | k in a :: a[k] <= At(b, k)
  }

  /** Missing entries cannot break the order. */
  lemma LeqEverywhere(a: VectorClock, b: VectorClock)
    ensures Leq(a, b) <==> forall k :: At(a, k) <= At(b, k)
  {
    if forall k :: At(a, k) <= At(b, k) {
      forall k | k in a ensures a[k] <= At(b, k) { assert At(a, k) <= At(b, k); }
    }
  }

  function Compare(a: VectorClock, b: VectorClock): Order {
    if Leq(a, b) && Leq(b, a) then Equal
    else if Leq(b, a) then Dominates
    else if Leq(a, b) then Dominated
    else Concurrent
  }

  method CompareVectorClock(a: VectorClock, b: VectorClock) returns (order: Order)
    ensures order == Compare(a, b)
  {
    var keys := a.Keys + b.Keys;
    var aGreater, bGreater := false, false;
    while keys != {}
      invariant keys <= a.Keys + b.Keys
      invariant aGreater <==> exists k :: k in a.Keys + b.Keys - keys && At(a, k) > At(b, k)
      invariant bGreater <==> exists k :: k in a.Keys + b.Keys - keys && At(b, k) > At(a, k)
      decreases keys
    {
      var k :| k in keys;
      var av, bv := At(a, k), At(b, k);
      ghost var seen := a.Keys + b.Keys - keys;
      if av > bv { aGreater := true; }
      if bv > av { bGreater := true; }
      keys := keys - {k};
      assert a.Keys + b.Keys - keys == seen + {k};
    }
    Verdicts(a, b, aGreater, bGreater);
    if !aGreater && !bGreater { return Equal; }
    if aGreater && !bGreater { return Dominates; }
    if !aGreater && bGreater { return Dominated; }
    return Concurrent;
  }

  lemma Verdicts(a: VectorClock, b: VectorClock, aGreater: bool, bGreater: bool)
    requires aGreater <==> exists k :: k in a.Keys + b.Keys && At(a, k) > At(b, k)
    requires bGreater <==> exists k :: k in a.Keys + b.Keys && At(b, k) > At(a, k)
    ensures aGreater <==> !Leq(a, b)
    ensures bGreater <==> !Leq(b, a)
  {
    LeqEverywhere(a, b);
    LeqEverywhere(b, a);
  }

  /** `Compare` is a partial order on clocks read with missing entries as 0. */
  lemma ClocksAreOrdered(a: VectorClock, b: VectorClock, c: VectorClock)
    ensures Compare(a, b) == Equal <==> forall k :: At(a, k) == At(b, k)
    ensures Compare(a, b) == Dominates <==> Compare(b, a) == Dominated
    ensures Compare(a, b) == Concurrent <==> Compare(b, a) == Concurrent
    ensures Compare(a, b) in {Dominates, Equal} && Compare(b, c) in {Dominates, Equal} ==>
              Compare(a, c) == if Compare(a, b) == Equal && Compare(b, c) == Equal then Equal else Dominates
  {
    LeqEverywhere(a, b);
    LeqEverywhere(b, a);
    LeqEverywhere(b, c);
    LeqEverywhere(c, b);
    LeqEverywhere(a, c);
    LeqEverywhere(c, a);
    if forall k :: At(a, k) == At(b, k) { assert forall k :: At(a, k) <= At(b, k) && At(b, k) <= At(a, k); }
    if Leq(c, b) && Leq(b, a) { forall k ensures At(c, k) <= At(a, k) { assert At(c, k) <= At(b, k); } }
    if Leq(a, c) && Leq(c, b) { forall k ensures At(a, k) <= At(b, k) { assert At(a, k) <= At(c, k); } }
    if Leq(b, a) && Leq(a, c) { forall k ensures At(b, k) <= At(c, k) { assert At(b, k) <= At(a, k); } }
  }

  function Joined(a: VectorClock, b: VectorClock): VectorClock {
    map k | k in a.Keys + b.Keys :: if At(a, k) >= At(b, k) then At(a, k) else At(b, k)
  }

  method MergedClock(a: VectorClock, b: VectorClock) returns (out: VectorClock)
    ensures out == Joined(a, b)
  {
    out := a;
    var keys := b.Keys;
    while keys != {}
      invariant keys <= b.Keys
      invariant out.Keys == a.Keys + (b.Keys - keys)
      invariant forall k | k in out :: out[k] == if k in keys then At(a, k) else At(Joined(a, b), k)
      decreases keys
    {
      var k :| k in keys;
      var v := At(out, k);
      assert v == At(a, k);
      out := out[k := if v >= b[k] then v else b[k]];
      keys := keys - {k};
    }
  }

  /** The merged clock is the least upper bound. */
  lemma JoinIsLeastUpperBound(a: VectorClock, b: VectorClock, c: VectorClock)
    ensures Leq(a, Joined(a, b)) && Leq(b, Joined(a, b))
    ensures Leq(a, c) && Leq(b, c) <==> Leq(Joined(a, b), c)
  {
    var j := Joined(a, b);
    LeqEverywhere(a, c);
    LeqEverywhere(b, c);
    LeqEverywhere(j, c);
    forall k ensures At(j, k) == if At(a, k) >= At(b, k) then At(a, k) else At(b, k) { }
    if Leq(j, c) {
      forall k ensures At(a, k) <= At(c, k) && At(b, k) <= At(c, k) { assert At(j, k) <= At(c, k); }
    }
  }

  // ----- Two edicts -----

  /** `locale` is the runtime's `localeCompare`. */
  function Merge(locale: (string, string) -> int, a: Edict, b: Edict): MergeResult {
    var cmp, merged := Compare(a.clock, b.clock), Joined(a.clock, b.clock);
    if cmp == Dominates then MergeResult(a, merged, ClockDominance)
    else if cmp == Dominated then MergeResult(b, merged, ClockDominance)
    else if a.precedence != b.precedence then
      MergeResult(if a.precedence > b.precedence then a else b, merged, Precedence)
    else MergeResult(if locale(a.nodeId, b.nodeId) <= 0 then a else b, merged, NodeId)
  }

  method MergeEdict(locale: (string, string) -> int, a: Edict, b: Edict) returns (r: MergeResult)
    ensures r == Merge(locale, a, b)
  {
    var cmp := CompareVectorClock(a.clock, b.clock);
    var merged := MergedClock(a.clock, b.clock);
    if cmp == Dominates { return MergeResult(a, merged, ClockDominance); }
    if cmp == Dominated { return MergeResult(b, merged, ClockDominance); }
    if a.precedence != b.precedence {
      return MergeResult(if a.precedence > b.precedence then a else b, merged, Precedence);
    }
    return MergeResult(if locale(a.nodeId, b.nodeId) <= 0 then a else b, merged, NodeId);
  }

  /** Every entry of `y` is there in `x`, as large or larger, or is 0. */
  predicate Covers(x: VectorClock, y: VectorClock) {
    forall k | k in y :: y[k] == 0 || (k in x && y[k] <= x[k])
  }

  lemma CoversIsLeq(x: VectorClock, y: VectorClock)
    ensures Covers(x, y) <==> Leq(y, x)
  {
  }

  /** The merge, entry by entry: a clock that covers the other and is not covered decides; else the higher precedence; else
      the collation of the node ids, the first in case of a tie. The merged clock has the entries of both, each the larger. */
  lemma MergeExactly(locale: (string, string) -> int, a: Edict, b: Edict)
    ensures var r, x, y := Merge(locale, a, b), a.clock, b.clock;
            && r == MergeResult(
                 if Covers(x, y) && !Covers(y, x) then a
                 else if Covers(y, x) && !Covers(x, y) then b
                 else if a.precedence > b.precedence then a
                 else if a.precedence < b.precedence then b
                 else if locale(a.nodeId, b.nodeId) <= 0 then a else b,
                 r.mergedClock,
                 if Covers(x, y) != Covers(y, x) then ClockDominance
                 else if a.precedence != b.precedence then Precedence else NodeId)
            && r.mergedClock.Keys == x.Keys + y.Keys
            && forall k | k in r.mergedClock ::
                 && (k in x ==> x[k] <= r.mergedClock[k]) && (k in y ==> y[k] <= r.mergedClock[k])
                 && ((k in x && r.mergedClock[k] == x[k]) || (k in y && r.mergedClock[k] == y[k]))
  {
    CoversIsLeq(a.clock, b.clock);
    CoversIsLeq(b.clock, a.clock);
  }

  datatype Resolution = Chosen(edict: Edict) | Schism(a: string, b: string)

  function ResolveConcurrentEdict(locale: (string, string) -> int, a: Edict, b: Edict): Resolution {
    if Compare(a.clock, b.clock) == Concurrent && a.precedence == b.precedence && a.nodeId == b.nodeId
    then Schism(a.id, b.id)
    else Chosen(Merge(locale, a, b).winner)
  }

  /** Concurrent clocks with one precedence and one node are a schism, named by the ids of both; anything else is merged. */
  lemma ResolvedExactly(locale: (string, string) -> int, a: Edict, b: Edict)
    ensures ResolveConcurrentEdict(locale, a, b) ==
            if !Covers(a.clock, b.clock) && !Covers(b.clock, a.clock) && a.precedence == b.precedence && a.nodeId == b.nodeId
            then Schism(a.id, b.id) else Chosen(Merge(locale, a, b).winner)
  {
    CoversIsLeq(a.clock, b.clock);
    CoversIsLeq(b.clock, a.clock);
  }

  function Mirrored(r: Resolution): Resolution {
    match r
    case Chosen(_) => r
    case Schism(a, b) => Schism(b, a)
  }

  /** Neither clock, nor precedence, nor the collation tells the two apart. */
  predicate Undecided(locale: (string, string) -> int, a: Edict, b: Edict) {
    Compare(a.clock, b.clock) in {Equal, Concurrent} && a.precedence == b.precedence && locale(a.nodeId, b.nodeId) == 0
  }

  /** Resolution gives both nodes the same answer, except exactly for two undecided edicts that are no schism:
      those with equal clocks, or whose different node ids the collation ties. */
  lemma ResolutionSymmetricExactly(locale: (string, string) -> int, a: Edict, b: Edict)
    requires Comparison(locale)
    ensures ResolveConcurrentEdict(locale, b, a) == Mirrored(ResolveConcurrentEdict(locale, a, b)) <==>
            a == b || !Undecided(locale, a, b) || (Compare(a.clock, b.clock) == Concurrent && a.nodeId == b.nodeId)
  {
    ClocksAreOrdered(a.clock, b.clock, a.clock);
    ClocksAreOrdered(b.clock, a.clock, b.clock);
    assert locale(a.nodeId, b.nodeId) <= 0 <==> locale(b.nodeId, a.nodeId) >= 0;
    assert locale(b.nodeId, a.nodeId) <= 0 <==> locale(a.nodeId, b.nodeId) >= 0;
  }

  // ----- Many edicts -----

  function Winner(locale: (string, string) -> int, a: Edict, b: Edict): (w: Edict)
    ensures w == a || w == b
  {
    Merge(locale, a, b).winner
  }

  /** Merging a list from left to right. */
  function FoldFrom(locale: (string, string) -> int, first: Edict, rest: seq<Edict>): (w: Edict)
    ensures w == first || w in rest
    decreases |rest|
  {
    if rest == [] then first else FoldFrom(locale, Winner(locale, first, rest[0]), rest[1..])
  }

  function FoldWinner(locale: (string, string) -> int, es: seq<Edict>): (w: Edict)
    requires |es| > 0
    ensures w in es
  {
    FoldFrom(locale, es[0], es[1..])
  }

  predicate Beats(locale: (string, string) -> int, w: Edict, x: Edict) {
    Winner(locale, w, x) == w && Winner(locale, x, w) == w
  }

  /** An edict that beats every other one, whichever comes first. */
  ghost predicate Champion(locale: (string, string) -> int, es: seq<Edict>, w: Edict) {
    w in es && forall x | x in es && x != w :: Beats(locale, w, x)
  }

  ghost predicate NoRepeats(es: seq<Edict>) {
    forall i, j | 0 <= i < j < |es| :: es[i] != es[j]
  }

  /** The winner of every order is `w`. */
  ghost predicate AlwaysWins(locale: (string, string) -> int, es: seq<Edict>, w: Edict) {
    forall other: seq<Edict> | multiset(other) == multiset(es) && |other| > 0 :: FoldWinner(locale, other) == w
  }

  lemma {:induction false} ChampionWinsFrom(locale: (string, string) -> int, first: Edict, rest: seq<Edict>, w: Edict)
    requires first == w || w in rest
    requires first != w ==> Beats(locale, w, first)
    requires forall x | x in rest && x != w :: Beats(locale, w, x)
    ensures FoldFrom(locale, first, rest) == w
    decreases |rest|
  {
    if rest != [] {
      var next := Winner(locale, first, rest[0]);
      assert rest == [rest[0]] + rest[1..];
      assert rest[0] in rest;
      if first == w || rest[0] == w { assert next == w; }
      ChampionWinsFrom(locale, next, rest[1..], w);
    }
  }

  lemma ChampionAlwaysWins(locale: (string, string) -> int, es: seq<Edict>, w: Edict)
    requires Champion(locale, es, w)
    ensures AlwaysWins(locale, es, w)
  {
    forall other: seq<Edict> | multiset(other) == multiset(es) && |other| > 0 ensures FoldWinner(locale, other) == w {
      forall x ensures x in other <==> x in es { assert x in multiset(other) <==> x in multiset(es); }
      assert other == [other[0]] + other[1..];
      ChampionWinsFrom(locale, other[0], other[1..], w);
    }
  }

  /** An edict beaten in the first merge never comes back. */
  lemma LoserIsOut(locale: (string, string) -> int, a: Edict, b: Edict, rest: seq<Edict>, w: Edict)
    requires w !in rest
    requires FoldWinner(locale, [a, b] + rest) == w
    ensures Winner(locale, a, b) == w
  {
    var es := [a, b] + rest;
    assert es[1..] == [b] + rest && es[1..][1..] == rest;
    assert FoldWinner(locale, es) == FoldFrom(locale, Winner(locale, a, b), rest);
  }

  lemma WinsOrder(locale: (string, string) -> int, es: seq<Edict>, w: Edict, other: seq<Edict>)
    requires AlwaysWins(locale, es, w) && multiset(other) == multiset(es) && |other| > 0
    ensures FoldWinner(locale, other) == w
  {
  }

  /** Whoever wins in every order beats everyone. */
  lemma AlwaysWinnerBeats(locale: (string, string) -> int, es: seq<Edict>, w: Edict, i: nat, j: nat)
    requires NoRepeats(es) && AlwaysWins(locale, es, w)
    requires i < |es| && j < |es| && es[i] == w && es[j] != w
    ensures Beats(locale, w, es[j])
  {
    var x := es[j];
    var rest := TwoInFront(es, i, j);
    NotAmongTheRest(es, w, x, rest);
    WinsOrder(locale, es, w, [w, x] + rest);
    WinsOrder(locale, es, w, [x, w] + rest);
    LoserIsOut(locale, w, x, rest, w);
    LoserIsOut(locale, x, w, rest, w);
  }

  lemma NotAmongTheRest(es: seq<Edict>, w: Edict, x: Edict, rest: seq<Edict>)
    requires NoRepeats(es) && multiset([w, x] + rest) == multiset(es)
    ensures w !in rest
  {
    MultisetOfFirstTwo(w, x, rest);
    NoRepeatsCount(es, w);
    assert w in multiset(rest) ==> multiset(es)[w] >= 2;
  }

  lemma {:induction false} NoRepeatsCount(es: seq<Edict>, e: Edict)
    requires NoRepeats(es)
    ensures multiset(es)[e] <= 1
  {
    if es != [] {
      var rest := es[1..];
      assert forall i | 0 <= i < |rest| :: rest[i] == es[i + 1];
      NoRepeatsCount(rest, e);
      assert es == [es[0]] + rest;
      assert es[0] !in multiset(rest);
    }
  }

  /** Merging different edicts gives one winner in every order exactly when one of them beats all others. */
  lemma OrderIndependentExactly(locale: (string, string) -> int, es: seq<Edict>)
    requires |es| > 0 && NoRepeats(es)
    ensures (exists w :: AlwaysWins(locale, es, w)) <==> (exists w :: Champion(locale, es, w))
  {
    if w :| AlwaysWins(locale, es, w) {
      assert FoldWinner(locale, es) == w;
      var i :| 0 <= i < |es| && es[i] == w;
      forall x | x in es && x != w ensures Beats(locale, w, x) {
        var j :| 0 <= j < |es| && es[j] == x;
        AlwaysWinnerBeats(locale, es, w, i, j);
      }
      assert Champion(locale, es, w);
    }
    if w :| Champion(locale, es, w) {
      ChampionAlwaysWins(locale, es, w);
    }
  }

  // ----- Concurrent edicts -----

  predicate ConcurrentPair(locale: (string, string) -> int, a: Edict, b: Edict) {
    Compare(a.clock, b.clock) == Concurrent && (a.precedence != b.precedence || locale(a.nodeId, b.nodeId) != 0)
  }

  /** Pairwise concurrent, and told apart by precedence or by the collation of their nodes. */
  ghost predicate ConcurrentAndDistinct(locale: (string, string) -> int, es: seq<Edict>) {
    forall i, j | 0 <= i < j < |es| :: ConcurrentPair(locale, es[i], es[j])
  }

  predicate Ranks(locale: (string, string) -> int, a: Edict, b: Edict) {
    if a.precedence != b.precedence then a.precedence > b.precedence else locale(a.nodeId, b.nodeId) < 0
  }

  lemma ConcurrentPairsRank(locale: (string, string) -> int, a: Edict, b: Edict)
    requires Comparison(locale) && ConcurrentPair(locale, a, b)
    ensures Ranks(locale, a, b) || Ranks(locale, b, a)
    ensures Ranks(locale, a, b) ==> Beats(locale, a, b)
    ensures Ranks(locale, b, a) ==> Beats(locale, b, a)
  {
    ClocksAreOrdered(a.clock, b.clock, a.clock);
    assert locale(a.nodeId, b.nodeId) <= 0 <==> locale(b.nodeId, a.nodeId) >= 0;
    assert locale(b.nodeId, a.nodeId) <= 0 <==> locale(a.nodeId, b.nodeId) >= 0;
  }

  lemma RanksTransitive(locale: (string, string) -> int, a: Edict, b: Edict, c: Edict)
    requires Comparison(locale) && Ranks(locale, a, b) && Ranks(locale, b, c)
    ensures Ranks(locale, a, c)
  {
    if a.precedence == b.precedence == c.precedence {
      assert locale(c.nodeId, a.nodeId) <= 0 ==> locale(c.nodeId, b.nodeId) <= 0;
      assert locale(c.nodeId, b.nodeId) <= 0 <==> locale(b.nodeId, c.nodeId) >= 0;
      assert locale(c.nodeId, a.nodeId) <= 0 <==> locale(a.nodeId, c.nodeId) >= 0;
    }
  }

  lemma {:induction false} TopRanked(locale: (string, string) -> int, es: seq<Edict>) returns (k: nat)
    requires Comparison(locale) && ConcurrentAndDistinct(locale, es) && |es| > 0
    ensures k < |es| && forall i | 0 <= i < |es| && i != k :: Ranks(locale, es[k], es[i])
  {
    var n := |es| - 1;
    if n == 0 {
      k := 0;
    } else {
      k := TopRanked(locale, es[..n]);
      assert forall i | 0 <= i < n && i != k :: Ranks(locale, es[..n][k], es[..n][i]);
      assert ConcurrentPair(locale, es[k], es[n]);
      ConcurrentPairsRank(locale, es[k], es[n]);
      if !Ranks(locale, es[k], es[n]) {
        forall i | 0 <= i < n ensures Ranks(locale, es[n], es[i]) {
          if i != k { RanksTransitive(locale, es[n], es[k], es[i]); }
        }
        k := n;
      }
    }
  }

  /** Among them the highest precedence wins, then the first node: one winner, in every order. */
  lemma ConcurrentEdictsConverge(locale: (string, string) -> int, es: seq<Edict>)
    requires Comparison(locale) && ConcurrentAndDistinct(locale, es) && |es| > 0
    ensures AlwaysWins(locale, es, FoldWinner(locale, es))
    ensures forall x | x in es && x != FoldWinner(locale, es) :: Ranks(locale, FoldWinner(locale, es), x)
  {
    var k := TopRanked(locale, es);
    forall x | x in es && x != es[k] ensures Beats(locale, es[k], x) && Ranks(locale, es[k], x) {
      var i :| 0 <= i < |es| && es[i] == x;
      PairEitherWay(locale, es, k, i);
    }
    ChampionAlwaysWins(locale, es, es[k]);
    assert FoldWinner(locale, es) == es[k];
  }

  lemma PairEitherWay(locale: (string, string) -> int, es: seq<Edict>, k: nat, i: nat)
    requires Comparison(locale) && ConcurrentAndDistinct(locale, es) && k < |es| && i < |es| && i != k
    requires Ranks(locale, es[k], es[i])
    ensures Beats(locale, es[k], es[i])
  {
    if k < i { ConcurrentPairsRank(locale, es[k], es[i]); } else { ConcurrentPairsRank(locale, es[i], es[k]); }
  }

  lemma LaterBeats(locale: (string, string) -> int, a: Edict, b: Edict)
    requires Leq(b.clock, a.clock) && !Leq(a.clock, b.clock)
    ensures Beats(locale, a, b)
  {
  }

  lemma HigherBeats(locale: (string, string) -> int, a: Edict, b: Edict)
    requires !Leq(b.clock, a.clock) && !Leq(a.clock, b.clock) && a.precedence > b.precedence
    ensures Beats(locale, a, b)
  {
  }

  /** Concurrency is needed: clock dominance and precedence together can form a cycle of three. */
  lemma ThreeEdictCycle(locale: (string, string) -> int) returns (a: Edict, b: Edict, c: Edict)
    ensures Beats(locale, a, b) && Beats(locale, b, c) && Beats(locale, c, a)
    ensures FoldWinner(locale, [a, b, c]) == c && FoldWinner(locale, [b, c, a]) == a
  {
    a := Edict("a", "n", 0, map["x" := 2], "");
    b := Edict("b", "n", 2, map["x" := 1], "");
    c := Edict("c", "n", 1, map["y" := 1], "");
    assert Leq(b.clock, a.clock) && !Leq(a.clock, b.clock) by { assert "x" in a.clock; }
    assert !Leq(a.clock, c.clock) && !Leq(b.clock, c.clock) by { assert "x" in a.clock && "x" in b.clock; }
    assert !Leq(c.clock, a.clock) && !Leq(c.clock, b.clock) by { assert "y" in c.clock; }
    LaterBeats(locale, a, b);
    HigherBeats(locale, b, c);
    HigherBeats(locale, c, a);
    FoldOfThree(locale, a, b, c);
    FoldOfThree(locale, b, c, a);
  }

  lemma FoldOfThree(locale: (string, string) -> int, a: Edict, b: Edict, c: Edict)
    ensures FoldWinner(locale, [a, b, c]) == Winner(locale, Winner(locale, a, b), c)
  {
    assert [a, b, c][1..] == [b, c] && [b, c][1..] == [c] && [c][1..] == [];
    assert FoldFrom(locale, Winner(locale, a, b), [c]) == Winner(locale, Winner(locale, a, b), c);
  }
}
