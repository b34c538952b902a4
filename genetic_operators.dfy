/**
 * The pure parts of the evolution engine: the individual record, two-point
 * crossover, bit-flip mutation given its per-gene draws, fitness-proportionate
 * (roulette) selection given its uniform draw, the stable best-first ranking
 * used for elitism, and the first-maximum rule used for best tracking.
 */
module GeneticOperators {
  import opened Results
  import opened ProblemDomain

  /** A candidate solution: its chromosome and the fitness last computed for it. */
  datatype Individual = Individual(genes: seq<Bit>, fitness: int)

  /** Fitness of an individual that has not been evaluated yet. */
  const Unevaluated: int := -1

  /** Why a run of the engine stops without a result. */
  datatype EngineError =
    | FitnessError(cause: DecodeError)   // a chromosome could not be decoded
    | EmptyPopulation                    // the maximum of an empty population was asked for
    | ZeroTotalWeight                    // roulette selection with no positive weight

  function Fitnesses(pop: seq<Individual>): (f: seq<int>)
    ensures |f| == |pop|
  {
    seq(|pop|, i requires 0 <= i < |pop| => pop[i].fitness)
  }

  // ---------------------------------------------------------------------------
  // Two-point crossover

  /** Cut points as drawn: two distinct interior positions, in increasing order. */
  predicate ValidCut(length: nat, p1: int, p2: int)
  {
    1 <= p1 < p2 <= length - 1
  }

  /**
   * Children of `a` and `b` for the cut pair (p1, p2): the middle segment
   * [p1, p2) is exchanged. Parents shorter than 3 genes are returned as they are.
   */
  function Crossover(a: seq<Bit>, b: seq<Bit>, p1: int, p2: int): (children: (seq<Bit>, seq<Bit>))
    requires |a| == |b|
    requires |a| >= 3 ==> ValidCut(|a|, p1, p2)
    ensures |children.0| == |a| && |children.1| == |a|
    ensures |a| < 3 ==> children == (a, b)
    ensures |a| >= 3 ==> forall i :: 0 <= i < |a| ==>
      if p1 <= i < p2 then children.0[i] == b[i] && children.1[i] == a[i]
      else children.0[i] == a[i] && children.1[i] == b[i]
  {
    if |a| < 3 then (a, b)
    else (a[..p1] + b[p1..p2] + a[p2..], b[..p1] + a[p1..p2] + b[p2..])
  }

  /** At every position the two children hold the two parents' genes, in some order. */
  lemma CrossoverKeepsGenePairs(a: seq<Bit>, b: seq<Bit>, p1: int, p2: int, i: nat)
    requires |a| == |b| && (|a| >= 3 ==> ValidCut(|a|, p1, p2)) && i < |a|
    ensures var (c1, c2) := Crossover(a, b, p1, p2);
      multiset{c1[i], c2[i]} == multiset{a[i], b[i]}
  {
  }

  /** No gene is invented or dropped: the children together hold the parents' genes. */
  lemma CrossoverConservesGenes(a: seq<Bit>, b: seq<Bit>, p1: int, p2: int)
    requires |a| == |b| && (|a| >= 3 ==> ValidCut(|a|, p1, p2))
    ensures var (c1, c2) := Crossover(a, b, p1, p2);
      multiset(c1) + multiset(c2) == multiset(a) + multiset(b)
  {
    if |a| >= 3 {
      assert a == a[..p1] + a[p1..p2] + a[p2..];
      assert b == b[..p1] + b[p1..p2] + b[p2..];
    }
  }

  /** Crossing the children again at the same cut points gives back the parents. */
  lemma CrossoverInvolution(a: seq<Bit>, b: seq<Bit>, p1: int, p2: int)
    requires |a| == |b| && (|a| >= 3 ==> ValidCut(|a|, p1, p2))
    ensures var (c1, c2) := Crossover(a, b, p1, p2);
      Crossover(c1, c2, p1, p2) == (a, b)
  {
    var (c1, c2) := Crossover(a, b, p1, p2);
    var (d1, d2) := Crossover(c1, c2, p1, p2);
    if |a| >= 3 {
      assert d1 == a;
      assert d2 == b;
    }
  }

  // ---------------------------------------------------------------------------
  // Bit-flip mutation

  /** `genes` after mutation: gene i is inverted exactly when its draw is below `rate`. */
  function Flipped(genes: seq<Bit>, draws: seq<real>, rate: real): (r: seq<Bit>)
    requires |draws| == |genes|
    ensures |r| == |genes|
    ensures forall i :: 0 <= i < |genes| ==> (r[i] != genes[i] <==> draws[i] < rate)
  {
    seq(|genes|, i requires 0 <= i < |genes| => if draws[i] < rate then 1 - genes[i] else genes[i])
  }

  /** With a rate of 0 (or less) no draw from [0, 1) is below it, so nothing changes. */
  lemma FlippedAtRateZero(genes: seq<Bit>, draws: seq<real>, rate: real)
    requires |draws| == |genes| && rate <= 0.0
    requires forall i :: 0 <= i < |draws| ==> 0.0 <= draws[i]
    ensures Flipped(genes, draws, rate) == genes
  {
    var r := Flipped(genes, draws, rate);
    assert forall i :: 0 <= i < |genes| ==> r[i] == genes[i];
  }

  /** Mutating twice with the same draws restores the genes. */
  lemma FlippedInvolution(genes: seq<Bit>, draws: seq<real>, rate: real)
    requires |draws| == |genes|
    ensures Flipped(Flipped(genes, draws, rate), draws, rate) == genes
  {
    var r := Flipped(Flipped(genes, draws, rate), draws, rate);
    assert forall i :: 0 <= i < |genes| ==> r[i] == genes[i];
  }

  // ---------------------------------------------------------------------------
  // Roulette selection

  /** Selection weights: negative fitness counts as 0. */
  function Weights(pop: seq<Individual>): (w: seq<nat>)
    ensures |w| == |pop|
    ensures forall i :: 0 <= i < |pop| ==> w[i] >= pop[i].fitness && (w[i] == 0 || w[i] == pop[i].fitness)
  {
    seq(|pop|, i requires 0 <= i < |pop| => if pop[i].fitness > 0 then pop[i].fitness else 0)
  }

  /** Sum of the first k weights (the k-th cumulative weight). */
  function Prefix(w: seq<nat>, k: nat): nat
    requires k <= |w|
  {
    if k == 0 then 0 else Prefix(w, k - 1) + w[k - 1]
  }

  function Total(w: seq<nat>): nat { Prefix(w, |w|) }

  /**
   * The index `bisect_right(cum_weights, x, 0, n - 1)` returns, found by a linear scan
   * from i: the first index whose cumulative weight exceeds x, else the last index.
   */
  function Bisect(w: seq<nat>, x: real, i: nat): (k: nat)
    requires i < |w|
    ensures i <= k < |w|
    decreases |w| - i
  {
    if i == |w| - 1 || Prefix(w, i + 1) as real > x then i else Bisect(w, x, i + 1)
  }

  /** Index picked for the uniform draw u: the weighted choice, or the error when all weights are 0. */
  function Roulette(w: seq<nat>, u: real): (r: Result<nat, EngineError>)
    ensures r.Err? <==> Total(w) == 0
    ensures r.Err? ==> r.error == ZeroTotalWeight
    ensures r.Ok? ==> r.value < |w|
  {
    if Total(w) == 0 then Err(ZeroTotalWeight) else Ok(Bisect(w, Scaled(u, Total(w)), 0))
  }

  /** The draw u stretched over the total weight; a draw in [0, 1) lands in [0, total). */
  function Scaled(u: real, total: nat): (x: real)
    ensures 0.0 <= u < 1.0 && total > 0 ==> 0.0 <= x < total as real
  {
    ScaledBounds(u, total as real);
    u * total as real
  }

  lemma ScaledBounds(u: real, t: real)
    ensures 0.0 <= u < 1.0 && t > 0.0 ==> 0.0 <= u * t < t
  {
    if 0.0 <= u < 1.0 && t > 0.0 {
      assert (1.0 - u) * t > 0.0;
    }
  }

  lemma {:induction false} PrefixMonotone(w: seq<nat>, j: nat, k: nat)
    requires j <= k <= |w|
    ensures Prefix(w, j) <= Prefix(w, k)
    decreases k - j
  {
    if j < k {
      PrefixMonotone(w, j, k - 1);
    }
  }

  lemma {:induction false} BisectInterval(w: seq<nat>, x: real, i: nat)
    requires i < |w|
    requires Prefix(w, i) as real <= x < Total(w) as real
    ensures Prefix(w, Bisect(w, x, i)) as real <= x < Prefix(w, Bisect(w, x, i) + 1) as real
    decreases |w| - i
  {
    if i < |w| - 1 && Prefix(w, i + 1) as real <= x {
      BisectInterval(w, x, i + 1);
    }
  }

  /**
   * Fitness-proportionate choice: for a draw u in [0, 1), index k is picked exactly
   * when u * total falls in [Prefix(k), Prefix(k + 1)), an interval of width w[k],
   * so k is picked with probability w[k] / total.
   */
  lemma RouletteInterval(w: seq<nat>, u: real, k: nat)
    requires Total(w) > 0 && 0.0 <= u < 1.0 && k < |w|
    ensures Roulette(w, u) == Ok(k) <==>
      Prefix(w, k) as real <= Scaled(u, Total(w)) < Prefix(w, k + 1) as real
  {
    BisectUnique(w, Scaled(u, Total(w)), k);
  }

  /** Roulette never picks an individual of weight 0 while some weight is positive. */
  lemma RouletteSkipsZeroWeight(w: seq<nat>, u: real)
    requires Total(w) > 0 && 0.0 <= u < 1.0
    ensures Roulette(w, u).Ok? && w[Roulette(w, u).value] > 0
  {
    var k := Roulette(w, u).value;
    RouletteInterval(w, u, k);
    assert Prefix(w, k + 1) == Prefix(w, k) + w[k];
  }

  /** The cumulative-weight interval holding x identifies the index bisection returns. */
  lemma BisectUnique(w: seq<nat>, x: real, k: nat)
    requires 0.0 <= x < Total(w) as real && k < |w|
    ensures Bisect(w, x, 0) == k <==> Prefix(w, k) as real <= x < Prefix(w, k + 1) as real
  {
    BisectInterval(w, x, 0);
    var j := Bisect(w, x, 0);
    if Prefix(w, k) as real <= x < Prefix(w, k + 1) as real && j != k {
      if j < k {
        PrefixMonotone(w, j + 1, k);
      } else {
        PrefixMonotone(w, k + 1, j);
      }
    }
  }

  // ---------------------------------------------------------------------------
  // Stable best-first ranking (elitism)

  /** Index i precedes index j in a stable sort by descending fitness. */
  predicate RankedBefore(fit: seq<int>, i: nat, j: nat)
    requires i < |fit| && j < |fit|
  {
    fit[i] > fit[j] || (fit[i] == fit[j] && i < j)
  }

  predicate InRange(fit: seq<int>, s: seq<nat>)
  {
    forall k :: 0 <= k < |s| ==> s[k] < |fit|
  }

  predicate Ranked(fit: seq<int>, s: seq<nat>)
    requires InRange(fit, s)
  {
    forall a, b :: 0 <= a < b < |s| ==> RankedBefore(fit, s[a], s[b])
  }

  /** Inserts index i, smaller than every index of the ranked list s, in its place. */
  function Insert(fit: seq<int>, i: nat, s: seq<nat>): (r: seq<nat>)
    requires i < |fit| && InRange(fit, s) && Ranked(fit, s)
    requires forall k :: 0 <= k < |s| ==> i < s[k]
    ensures |r| == |s| + 1 && InRange(fit, r) && Ranked(fit, r)
    ensures forall j :: j in r <==> j == i || j in s
  {
    if s == [] || fit[i] >= fit[s[0]] then
      ConsRanked(fit, i, s);
      [i] + s
    else
      var t := Insert(fit, i, s[1..]);
      InsertHeadRanked(fit, i, s, t);
      [s[0]] + t
  }

  /** A list stays ranked when an index ranked before all its members is put in front. */
  lemma ConsRanked(fit: seq<int>, x: nat, t: seq<nat>)
    requires x < |fit| && InRange(fit, t) && Ranked(fit, t)
    requires forall k :: 0 <= k < |t| ==> RankedBefore(fit, x, t[k])
    ensures InRange(fit, [x] + t) && Ranked(fit, [x] + t)
  {
    var r := [x] + t;
    forall a, b | 0 <= a < b < |r| ensures RankedBefore(fit, r[a], r[b]) {
      if a > 0 {
        assert r[a] == t[a - 1] && r[b] == t[b - 1];
      } else {
        assert r[b] == t[b - 1];
      }
    }
  }

  /** The head of s, fitter than i, is ranked before everything of t = Insert(i, s[1..]). */
  lemma InsertHeadRanked(fit: seq<int>, i: nat, s: seq<nat>, t: seq<nat>)
    requires i < |fit| && InRange(fit, s) && Ranked(fit, s) && |s| > 0 && fit[i] < fit[s[0]]
    requires InRange(fit, t) && Ranked(fit, t)
    requires forall j :: j in t <==> j == i || j in s[1..]
    ensures InRange(fit, [s[0]] + t) && Ranked(fit, [s[0]] + t)
  {
    forall k | 0 <= k < |t| ensures RankedBefore(fit, s[0], t[k]) {
      assert t[k] in t;
      if t[k] != i {
        var b :| 0 <= b < |s[1..]| && s[1..][b] == t[k];
        assert s[b + 1] == t[k];
      }
    }
    ConsRanked(fit, s[0], t);
  }

  /** Indices lo .. |fit| - 1 ranked by descending fitness, ties in index order. */
  function RankFrom(fit: seq<int>, lo: nat): (r: seq<nat>)
    requires lo <= |fit|
    ensures |r| == |fit| - lo && InRange(fit, r) && Ranked(fit, r)
    ensures forall j: int :: j in r <==> lo <= j < |fit|
    decreases |fit| - lo
  {
    if lo == |fit| then []
    else
      var rest := RankFrom(fit, lo + 1);
      assert forall k :: 0 <= k < |rest| ==> rest[k] in rest;
      Insert(fit, lo, rest)
  }

  /** The order in which a stable descending sort by fitness lists the indices of `fit`. */
  function RankOrder(fit: seq<int>): (r: seq<nat>)
    ensures |r| == |fit| && InRange(fit, r) && Ranked(fit, r)
    ensures forall j: int :: j in r <==> 0 <= j < |fit|
  {
    RankFrom(fit, 0)
  }

  /** The first m ranked indices outrank every other index: they are the m fittest, ties to the earlier. */
  lemma RankPrefixIsTop(fit: seq<int>, m: nat)
    requires m <= |fit|
    ensures forall k, j :: 0 <= k < m && 0 <= j < |fit| && j !in RankOrder(fit)[..m] ==>
      RankedBefore(fit, RankOrder(fit)[k], j)
  {
    var o := RankOrder(fit);
    forall k, j | 0 <= k < m && 0 <= j < |fit| && j !in o[..m] ensures RankedBefore(fit, o[k], j) {
      forall c | 0 <= c < m ensures o[c] != j {
        assert o[..m][c] == o[c];
      }
      assert j in o;
      var c :| 0 <= c < |o| && o[c] == j;
      assert k < c;
    }
  }

  // ---------------------------------------------------------------------------
  // First maximum

  /** Scans from i, keeping `best` unless a strictly fitter individual appears. */
  function MaxFrom(fit: seq<int>, i: nat, best: nat): (k: nat)
    requires best < i <= |fit|
    requires forall j :: 0 <= j < i ==> fit[j] <= fit[best]
    requires forall j :: 0 <= j < best ==> fit[j] < fit[best]
    ensures k < |fit|
    ensures forall j :: 0 <= j < |fit| ==> fit[j] <= fit[k]
    ensures forall j :: 0 <= j < k ==> fit[j] < fit[k]
    decreases |fit| - i
  {
    if i == |fit| then best
    else MaxFrom(fit, i + 1, if fit[i] > fit[best] then i else best)
  }

  /** Index of the first individual of maximal fitness; none for an empty population. */
  function FirstMax(fit: seq<int>): (r: Option<nat>)
    ensures r.None? <==> |fit| == 0
    ensures r.Some? ==> r.value < |fit|
    ensures r.Some? ==> forall j :: 0 <= j < |fit| ==> fit[j] <= fit[r.value]
    ensures r.Some? ==> forall j :: 0 <= j < r.value ==> fit[j] < fit[r.value]
  {
    if |fit| == 0 then None else Some(MaxFrom(fit, 1, 0))
  }

  // ---------------------------------------------------------------------------
  // Best tracking

  /**
   * Best-so-far update after a generation whose maximum is `current`: a strictly fitter
   * `current` replaces the record and resets the stagnation count, anything else keeps
   * the record and counts one more stagnant generation.
   */
  function UpdateBest(best: Individual, stagnant: int, current: Individual): (r: (Individual, int))
    ensures r.0.fitness >= best.fitness && r.0.fitness >= current.fitness
    ensures r.0 == current || r.0 == best
    ensures current.fitness <= best.fitness ==> r.0 == best
    ensures stagnant >= 0 ==> (r.1 == 0 <==> current.fitness > best.fitness)
    ensures current.fitness <= best.fitness ==> r.1 == stagnant + 1
  {
    if current.fitness > best.fitness then (current, 0) else (best, stagnant + 1)
  }

  /** The stable ranking starts with the first maximal individual. */
  lemma RankHeadIsFirstMax(fit: seq<int>)
    requires |fit| > 0
    ensures RankOrder(fit)[0] == FirstMax(fit).value
  {
    var o := RankOrder(fit);
    var m := FirstMax(fit).value;
    assert m in o;
    forall c | 0 < c < |o| ensures o[c] != m {
      assert RankedBefore(fit, o[0], o[c]);
    }
  }
}
