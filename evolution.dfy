/**
 * The generational engine: it owns the population, breeds each generation by
 * elitism plus roulette selection, two-point crossover and bit-flip mutation,
 * re-evaluates it, tracks the best individual found so far and stops after
 * `maxGenerations` generations or once fitness has stagnated.
 */
module Evolution {
  import opened Results
  import opened ProblemDomain
  import opened GeneticOperators
  import opened RandomSource

  /** The engine's tuning constants. */
  datatype Config = Config(
    populationSize: nat,
    maxGenerations: nat,
    elitismCount: nat,
    crossoverRate: real,
    mutationRate: real,
    maxStagnantGenerations: int)

  /** Every chromosome of `pop` has `length` genes. */
  ghost predicate Shaped(pop: seq<Individual>, length: nat)
  {
    forall i :: 0 <= i < |pop| ==> |pop[i].genes| == length
  }

  /** Every stored fitness is the fitness of the individual's genes. */
  ghost predicate Evaluated(p: Problem, pop: seq<Individual>)
  {
    forall i :: 0 <= i < |pop| ==> CalculateFitness(p, pop[i].genes) == Ok(pop[i].fitness)
  }

  /** Number of elites carried over: the slice elite[:elitismCount] of the ranked population. */
  function EliteCount(cfg: Config, pop: seq<Individual>): nat
  {
    Min(cfg.elitismCount, |pop|)
  }

  /** How many offspring the breeding loop must add to the elites. */
  function Vacancies(cfg: Config, pop: seq<Individual>): nat
  {
    if EliteCount(cfg, pop) < cfg.populationSize then cfg.populationSize - EliteCount(cfg, pop) else 0
  }

  /** Scans from i, keeping `best` unless a strictly fitter individual appears. */
  ghost function ScanTop(pop: seq<Individual>, i: nat, best: nat): (k: nat)
    requires best < i <= |pop|
    ensures k < |pop|
    decreases |pop| - i
  {
    if i == |pop| then best
    else ScanTop(pop, i + 1, if pop[i].fitness > pop[best].fitness then i else best)
  }

  /** The index of the first individual no later one strictly beats. */
  ghost function TopIndex(pop: seq<Individual>): (i: nat)
    requires |pop| > 0
    ensures i < |pop|
  {
    ScanTop(pop, 1, 0)
  }

  /**
   * The first maximal individual of a non-empty population: the one max() returns.
   * It has its own scan rather than going through `FirstMax` so that the many goals
   * mentioning `Top` do not carry `FirstMax`'s quantified postconditions along;
   * `TopIsFirstMax` shows the two agree.
   */
  ghost function Top(pop: seq<Individual>): Individual
    requires |pop| > 0
  {
    pop[TopIndex(pop)]
  }

  /** A scan that starts from a first maximum of pop[..i] ends at a first maximum of `pop`. */
  lemma {:induction false} ScanFindsFirstMaximum(pop: seq<Individual>, i: nat, best: nat)
    requires best < i <= |pop|
    requires forall j :: 0 <= j < i ==> pop[j].fitness <= pop[best].fitness
    requires forall j :: 0 <= j < best ==> pop[j].fitness < pop[best].fitness
    ensures forall j :: 0 <= j < |pop| ==> pop[j].fitness <= pop[ScanTop(pop, i, best)].fitness
    ensures forall j :: 0 <= j < ScanTop(pop, i, best) ==> pop[j].fitness < pop[ScanTop(pop, i, best)].fitness
    decreases |pop| - i
  {
    if i < |pop| {
      ScanFindsFirstMaximum(pop, i + 1, if pop[i].fitness > pop[best].fitness then i else best);
    }
  }

  /** `Top` is the individual at `FirstMax` of the fitnesses, so it is at least as fit as all. */
  lemma TopIsFirstMax(pop: seq<Individual>)
    requires |pop| > 0
    ensures TopIndex(pop) == FirstMax(Fitnesses(pop)).value
    ensures forall j :: 0 <= j < |pop| ==> pop[j].fitness <= Top(pop).fitness
  {
    ScanFindsFirstMaximum(pop, 1, 0);
    var i, m, f := TopIndex(pop), FirstMax(Fitnesses(pop)).value, Fitnesses(pop);
    assert f[i] == pop[i].fitness && f[m] == pop[m].fitness;
  }

  /** The elites: the first m individuals of the stable descending ranking. */
  function Elites(pop: seq<Individual>, m: nat): (elites: seq<Individual>)
    requires m <= |pop|
    ensures |elites| == m
  {
    var order := RankOrder(Fitnesses(pop));
    seq(m, k requires 0 <= k < m => pop[order[k]])
  }

  /** Newly bred individuals, not yet evaluated. */
  function Newborn(young: seq<seq<Bit>>): seq<Individual>
  {
    seq(|young|, k requires 0 <= k < |young| => Individual(young[k], Unevaluated))
  }

  /** Two children and the positions of the unit and cut-pair streams after breeding them. */
  datatype Litter = Litter(childA: seq<Bit>, childB: seq<Bit>, units: nat, pairs: nat)

  /**
   * The children of parents `a` and `b` with the streams at `u` and `q`: unit draw u is the
   * crossover coin, a cut pair is drawn only when crossing chromosomes of 3 genes or more,
   * then child A is mutated by the next |a| unit draws and child B by the |a| after those.
   */
  ghost function Offspring(rng: Rng, cfg: Config, a: seq<Bit>, b: seq<Bit>, u: nat, q: nat): (l: Litter)
    requires rng.Valid() && |a| == |b|
    ensures |l.childA| == |a| && |l.childB| == |a|
  {
    var crossing := rng.unit(u) < cfg.crossoverRate;
    var cut := rng.pair(q, |a|);
    var crossed := if crossing then Crossover(a, b, cut.0, cut.1) else (a, b);
    Litter(Flipped(crossed.0, rng.UnitWindow(u + 1, |a|), cfg.mutationRate),
           Flipped(crossed.1, rng.UnitWindow(u + 1 + |a|, |a|), cfg.mutationRate),
           u + 1 + 2 * |a|, if crossing && |a| >= 3 then q + 1 else q)
  }

  /** The litter of one breeding step: the parents are the roulette picks of unit draws u and u + 1. */
  ghost function Brood(rng: Rng, cfg: Config, pop: seq<Individual>, len: nat, u: nat, q: nat): (l: Litter)
    requires rng.Valid() && Shaped(pop, len) && Total(Weights(pop)) > 0
    ensures |l.childA| == len && |l.childB| == len
  {
    var w := Weights(pop);
    Offspring(rng, cfg, pop[Roulette(w, rng.unit(u)).value].genes, pop[Roulette(w, rng.unit(u + 1)).value].genes,
              u + 2, q)
  }

  /**
   * The first n offspring bred litter by litter from stream positions u and q; only
   * child A of the last litter when n is odd.
   */
  ghost function Clutch(rng: Rng, cfg: Config, pop: seq<Individual>, len: nat, n: nat, u: nat, q: nat)
    : (young: seq<seq<Bit>>)
    requires rng.Valid() && Shaped(pop, len) && Total(Weights(pop)) > 0
    ensures |young| == n
    ensures forall k :: 0 <= k < n ==> |young[k]| == len
    decreases n
  {
    if n == 0 then []
    else
      var l := Brood(rng, cfg, pop, len, u, q);
      if n == 1 then [l.childA] else [l.childA, l.childB] + Clutch(rng, cfg, pop, len, n - 2, l.units, l.pairs)
  }

  /**
   * The first n offspring of the breeding loop, litter by litter (only child A of the last
   * litter when n is odd); none when no weight is positive, because selection fails.
   */
  ghost function Broods(rng: Rng, cfg: Config, pop: seq<Individual>, len: nat, n: nat, u: nat, q: nat)
    : (young: seq<seq<Bit>>)
    requires rng.Valid() && Shaped(pop, len)
    ensures |young| == (if Total(Weights(pop)) == 0 then 0 else n)
    ensures forall k :: 0 <= k < |young| ==> |young[k]| == len
  {
    if Total(Weights(pop)) == 0 then [] else Clutch(rng, cfg, pop, len, n, u, q)
  }

  /**
   * Where the unit and cut-pair streams stand after the first n offspring were bred
   * litter by litter from positions u and q.
   */
  ghost function ClutchEnd(rng: Rng, cfg: Config, pop: seq<Individual>, len: nat, n: nat, u: nat, q: nat)
    : (e: (nat, nat))
    requires rng.Valid() && Shaped(pop, len) && Total(Weights(pop)) > 0
    decreases n
  {
    if n == 0 then (u, q)
    else
      var l := Brood(rng, cfg, pop, len, u, q);
      if n == 1 then (l.units, l.pairs) else ClutchEnd(rng, cfg, pop, len, n - 2, l.units, l.pairs)
  }

  /**
   * Each litter takes exactly 3 + 2 * len unit draws (two roulette spins, the crossover
   * coin, one mutation draw per gene of each child) and at most one cut pair.
   */
  lemma {:induction false} ClutchDraws(rng: Rng, cfg: Config, pop: seq<Individual>, len: nat, n: nat, u: nat, q: nat)
    requires rng.Valid() && Shaped(pop, len) && Total(Weights(pop)) > 0
    ensures ClutchEnd(rng, cfg, pop, len, n, u, q).0 == u + (n + 1) / 2 * (3 + 2 * len)
    ensures q <= ClutchEnd(rng, cfg, pop, len, n, u, q).1 <= q + (n + 1) / 2
    decreases n
  {
    if n > 0 {
      var l := Brood(rng, cfg, pop, len, u, q);
      assert l.units == u + 3 + 2 * len && q <= l.pairs <= q + 1;
      if n >= 2 {
        ClutchDraws(rng, cfg, pop, len, n - 2, l.units, l.pairs);
        OneMoreLitter(n, 3 + 2 * len);
      }
    }
  }

  /** Two more vacancies make one more litter, which draws `d` more. */
  lemma OneMoreLitter(n: nat, d: nat)
    requires n >= 2
    ensures (n + 1) / 2 == (n - 1) / 2 + 1 && (n + 1) / 2 * d == (n - 1) / 2 * d + d
  {
  }

  /**
   * Where the streams stand after breeding the generation that follows `pop` from u and q;
   * nothing is drawn when selection fails.
   */
  ghost function BreedEnd(rng: Rng, cfg: Config, pop: seq<Individual>, len: nat, u: nat, q: nat): (e: (nat, nat))
    requires rng.Valid() && Shaped(pop, len)
  {
    if Total(Weights(pop)) > 0 then ClutchEnd(rng, cfg, pop, len, Vacancies(cfg, pop), u, q) else (u, q)
  }

  /**
   * The generation bred from `pop` with the streams at `u` and `q`: the elites, then offspring
   * up to `populationSize`. It has exactly `populationSize` members unless selection fails.
   */
  ghost function NextPopulation(rng: Rng, cfg: Config, pop: seq<Individual>, len: nat, u: nat, q: nat)
    : (next: seq<Individual>)
    requires rng.Valid() && Shaped(pop, len)
    ensures |next| <= cfg.populationSize
    ensures Total(Weights(pop)) > 0 || EliteCount(cfg, pop) >= cfg.populationSize ==> |next| == cfg.populationSize
  {
    var m := EliteCount(cfg, pop);
    var young := Broods(rng, cfg, pop, len, Vacancies(cfg, pop), u, q);
    var all := Elites(pop, m) + Newborn(young);
    all[..Min(cfg.populationSize, |all|)]
  }

  /**
   * A bred generation holds chromosomes of the parents' length; its first members are
   * the ranked elites and the rest are unevaluated.
   */
  lemma NextPopulationShape(rng: Rng, cfg: Config, pop: seq<Individual>, len: nat, u: nat, q: nat)
    requires rng.Valid() && Shaped(pop, len)
    ensures var next := NextPopulation(rng, cfg, pop, len, u, q);
      && Shaped(next, len)
      && (forall k :: 0 <= k < Min(EliteCount(cfg, pop), |next|) ==> next[k] == pop[RankOrder(Fitnesses(pop))[k]])
      && (forall k :: EliteCount(cfg, pop) <= k < |next| ==> next[k].fitness == Unevaluated)
  {
  }

  /**
   * With a mutation rate of 0 (or less) the children are the crossover of the parents, or
   * copies of them when the coin says no: every child gene is one of the parents' genes at
   * that locus.
   */
  lemma OffspringWithoutMutation(rng: Rng, cfg: Config, a: seq<Bit>, b: seq<Bit>, u: nat, q: nat)
    requires rng.Valid() && |a| == |b| && cfg.mutationRate <= 0.0
    ensures var l, cut := Offspring(rng, cfg, a, b, u, q), rng.pair(q, |a|);
      (l.childA, l.childB) == if rng.unit(u) < cfg.crossoverRate then Crossover(a, b, cut.0, cut.1) else (a, b)
    ensures var l := Offspring(rng, cfg, a, b, u, q);
      forall i :: 0 <= i < |a| ==> (l.childA[i] == a[i] || l.childA[i] == b[i]) && (l.childB[i] == a[i] || l.childB[i] == b[i])
  {
    var cut := rng.pair(q, |a|);
    var crossed := if rng.unit(u) < cfg.crossoverRate then Crossover(a, b, cut.0, cut.1) else (a, b);
    FlippedAtRateZero(crossed.0, rng.UnitWindow(u + 1, |a|), cfg.mutationRate);
    FlippedAtRateZero(crossed.1, rng.UnitWindow(u + 1 + |a|, |a|), cfg.mutationRate);
  }

  /** `c` is a child bred from two members of `pop` that both have a positive weight. */
  ghost predicate Descendant(rng: Rng, cfg: Config, pop: seq<Individual>, c: seq<Bit>)
    requires rng.Valid()
  {
    exists i, j, u: nat, q: nat ::
      && 0 <= i < |pop| && 0 <= j < |pop| && |pop[i].genes| == |pop[j].genes|
      && Weights(pop)[i] > 0 && Weights(pop)[j] > 0
      && (c == Offspring(rng, cfg, pop[i].genes, pop[j].genes, u, q).childA ||
          c == Offspring(rng, cfg, pop[i].genes, pop[j].genes, u, q).childB)
  }

  /** Both children of a breeding step descend from parents of positive weight. */
  lemma BroodDescends(rng: Rng, cfg: Config, pop: seq<Individual>, len: nat, u: nat, q: nat)
    requires rng.Valid() && Shaped(pop, len) && Total(Weights(pop)) > 0
    ensures Descendant(rng, cfg, pop, Brood(rng, cfg, pop, len, u, q).childA)
    ensures Descendant(rng, cfg, pop, Brood(rng, cfg, pop, len, u, q).childB)
  {
    var w := Weights(pop);
    RouletteSkipsZeroWeight(w, rng.unit(u));
    RouletteSkipsZeroWeight(w, rng.unit(u + 1));
    var i, j := Roulette(w, rng.unit(u)).value, Roulette(w, rng.unit(u + 1)).value;
    var l := Offspring(rng, cfg, pop[i].genes, pop[j].genes, u + 2, q);
    assert Brood(rng, cfg, pop, len, u, q) == l;
  }

  /** Whatever the stream positions, both children of a breeding step descend from parents of positive weight. */
  lemma BroodsDescend(rng: Rng, cfg: Config, pop: seq<Individual>, len: nat)
    requires rng.Valid() && Shaped(pop, len) && Total(Weights(pop)) > 0
    ensures forall u: nat, q: nat :: && Descendant(rng, cfg, pop, Brood(rng, cfg, pop, len, u, q).childA)
                                     && Descendant(rng, cfg, pop, Brood(rng, cfg, pop, len, u, q).childB)
  {
    forall u: nat, q: nat
      ensures Descendant(rng, cfg, pop, Brood(rng, cfg, pop, len, u, q).childA)
      ensures Descendant(rng, cfg, pop, Brood(rng, cfg, pop, len, u, q).childB)
    {
      BroodDescends(rng, cfg, pop, len, u, q);
    }
  }

  /** Every child of a clutch has property `ok` when both children of every breeding step have it. */
  lemma {:induction false} ClutchAll(rng: Rng, cfg: Config, pop: seq<Individual>, len: nat, ok: seq<Bit> -> bool,
                                     n: nat, u: nat, q: nat)
    requires rng.Valid() && Shaped(pop, len) && Total(Weights(pop)) > 0
    requires forall u: nat, q: nat :: ok(Brood(rng, cfg, pop, len, u, q).childA) && ok(Brood(rng, cfg, pop, len, u, q).childB)
    ensures forall k :: 0 <= k < n ==> ok(Clutch(rng, cfg, pop, len, n, u, q)[k])
    decreases n
  {
    if n >= 2 {
      var l := Brood(rng, cfg, pop, len, u, q);
      ClutchAll(rng, cfg, pop, len, ok, n - 2, l.units, l.pairs);
      assert Clutch(rng, cfg, pop, len, n, u, q) == [l.childA, l.childB] + Clutch(rng, cfg, pop, len, n - 2, l.units, l.pairs);
    }
  }

  /** Past the elites, every member of a bred generation descends from two parents of positive weight. */
  lemma OffspringDescend(rng: Rng, cfg: Config, pop: seq<Individual>, len: nat, u: nat, q: nat)
    requires rng.Valid() && Shaped(pop, len)
    ensures var next := NextPopulation(rng, cfg, pop, len, u, q);
      forall k :: EliteCount(cfg, pop) <= k < |next| ==> Descendant(rng, cfg, pop, next[k].genes)
  {
    if Total(Weights(pop)) > 0 {
      var ok := (c: seq<Bit>) => Descendant(rng, cfg, pop, c);
      BroodsDescend(rng, cfg, pop, len);
      var n := Vacancies(cfg, pop);
      ClutchAll(rng, cfg, pop, len, ok, n, u, q);
      var young := Clutch(rng, cfg, pop, len, n, u, q);
      assert young == Broods(rng, cfg, pop, len, n, u, q);
      var elites := Elites(pop, EliteCount(cfg, pop));
      var next := NextPopulation(rng, cfg, pop, len, u, q);
      forall k | EliteCount(cfg, pop) <= k < |next| ensures Descendant(rng, cfg, pop, next[k].genes) {
        assert next[k] == (elites + Newborn(young))[k] == Newborn(young)[k - |elites|];
        assert ok(young[k - |elites|]);
      }
    }
  }

  /**
   * Without mutation, a descendant holds at each locus the gene of one of its two
   * parents, both members of `pop` with a positive weight.
   */
  lemma DescendantWithoutMutation(rng: Rng, cfg: Config, pop: seq<Individual>, c: seq<Bit>)
    requires rng.Valid() && cfg.mutationRate <= 0.0 && Descendant(rng, cfg, pop, c)
    ensures exists i, j ::
      && 0 <= i < |pop| && 0 <= j < |pop| && Weights(pop)[i] > 0 && Weights(pop)[j] > 0
      && |c| == |pop[i].genes| == |pop[j].genes|
      && forall l :: 0 <= l < |c| ==> c[l] == pop[i].genes[l] || c[l] == pop[j].genes[l]
  {
    var i, j, u: nat, q: nat :|
      && 0 <= i < |pop| && 0 <= j < |pop| && |pop[i].genes| == |pop[j].genes|
      && Weights(pop)[i] > 0 && Weights(pop)[j] > 0
      && (c == Offspring(rng, cfg, pop[i].genes, pop[j].genes, u, q).childA ||
          c == Offspring(rng, cfg, pop[i].genes, pop[j].genes, u, q).childB);
    OffspringWithoutMutation(rng, cfg, pop[i].genes, pop[j].genes, u, q);
  }

  /** `pop` is `bred` evaluated: the same chromosomes in the same order, each with its real fitness. */
  ghost predicate Regenerated(p: Problem, pop: seq<Individual>, bred: seq<Individual>)
  {
    && |pop| == |bred|
    && (forall k :: 0 <= k < |pop| ==> pop[k].genes == bred[k].genes)
    && Evaluated(p, pop)
  }

  /**
   * `next` is the evaluated generation bred from `prev` with the unit stream at `u` and
   * the cut-pair stream at `q`.
   */
  ghost predicate BredAt(rng: Rng, cfg: Config, p: Problem, prev: seq<Individual>, next: seq<Individual>, u: nat, q: nat)
    requires rng.Valid()
  {
    && Shaped(prev, ChromosomeLength(p))
    && Regenerated(p, next, NextPopulation(rng, cfg, prev, ChromosomeLength(p), u, q))
  }

  /** `next` is the evaluated generation bred from `prev` for some position of the random streams. */
  ghost predicate BredFrom(rng: Rng, cfg: Config, p: Problem, prev: seq<Individual>, next: seq<Individual>)
    requires rng.Valid()
  {
    exists u: nat, q: nat :: BredAt(rng, cfg, p, prev, next, u, q)
  }

  /** Generation `pop` is full of evaluated chromosomes and `s` records its maximum. */
  ghost predicate Recorded(p: Problem, pop: seq<Individual>, s: Step)
  {
    |pop| > 0 && Shaped(pop, ChromosomeLength(p)) && Evaluated(p, pop) && s.currentBest == Top(pop).fitness
  }

  /**
   * `gens` are the generations the loop went through and `h` its history: one step per
   * generation, each recording that generation's maximum, every generation after the
   * first bred from the one before.
   */
  ghost predicate Chronicle(rng: Rng, cfg: Config, p: Problem, gens: seq<seq<Individual>>, h: seq<Step>)
    requires rng.Valid()
  {
    && |gens| == |h|
    && (forall k :: 0 <= k < |gens| ==> Recorded(p, gens[k], h[k]))
    && (forall k :: 0 < k < |gens| ==> BredFrom(rng, cfg, p, gens[k - 1], gens[k]))
  }

  /**
   * `next` is bred from `prev` with the streams where step `s` left them, and step `t`
   * holds where that breeding leaves them.
   */
  ghost predicate Linked(rng: Rng, cfg: Config, p: Problem, prev: seq<Individual>, next: seq<Individual>, s: Step, t: Step)
    requires rng.Valid()
  {
    && BredAt(rng, cfg, p, prev, next, s.units, s.pairs)
    && (t.units, t.pairs) == BreedEnd(rng, cfg, prev, ChromosomeLength(p), s.units, s.pairs)
  }

  /**
   * The chronicle as the loop builds it: each generation recorded by its step; each after
   * the first bred from the one before it with the streams where the step before left
   * them, and its own step holding where that breeding left them.
   */
  ghost predicate Chain(rng: Rng, cfg: Config, p: Problem, gens: seq<seq<Individual>>, h: seq<Step>)
    requires rng.Valid()
  {
    && |gens| == |h|
    && (forall k :: 0 <= k < |gens| ==> Recorded(p, gens[k], h[k]))
    && (forall j, k :: 0 <= j && k == j + 1 < |gens| ==> Linked(rng, cfg, p, gens[j], gens[k], h[j], h[k]))
  }

  /** A chain extended by a recorded generation bred from its last one where the last step left the streams. */
  lemma ExtendChain(rng: Rng, cfg: Config, p: Problem, gens: seq<seq<Individual>>, h: seq<Step>,
                    next: seq<Individual>, s: Step)
    requires rng.Valid() && Chain(rng, cfg, p, gens, h) && |gens| > 0 && Recorded(p, next, s)
    requires Regenerated(p, next, NextPopulation(rng, cfg, gens[|gens| - 1], ChromosomeLength(p),
                                                 h[|h| - 1].units, h[|h| - 1].pairs))
    requires (s.units, s.pairs) == BreedEnd(rng, cfg, gens[|gens| - 1], ChromosomeLength(p), h[|h| - 1].units, h[|h| - 1].pairs)
    ensures Chain(rng, cfg, p, gens + [next], h + [s])
  {
    var gens', h' := gens + [next], h + [s];
    var n := |gens|;
    forall k | 0 <= k < |gens'| ensures Recorded(p, gens'[k], h'[k]) {
      if k < n {
        assert gens'[k] == gens[k] && h'[k] == h[k];
      }
    }
    assert Shaped(gens[n - 1], ChromosomeLength(p));
    assert Linked(rng, cfg, p, gens[n - 1], next, h[n - 1], s);
    forall j, k | 0 <= j && k == j + 1 < |gens'| ensures Linked(rng, cfg, p, gens'[j], gens'[k], h'[j], h'[k]) {
      assert gens'[j] == gens[j] && h'[j] == h[j];
      if k < n {
        assert gens'[k] == gens[k] && h'[k] == h[k];
      } else {
        assert gens'[k] == next && h'[k] == s && j == n - 1;
      }
    }
  }

  /** Every chain is a chronicle. */
  lemma ChainIsChronicle(rng: Rng, cfg: Config, p: Problem, gens: seq<seq<Individual>>, h: seq<Step>)
    requires rng.Valid() && Chain(rng, cfg, p, gens, h)
    ensures Chronicle(rng, cfg, p, gens, h)
  {
    forall k | 0 < k < |gens| ensures BredFrom(rng, cfg, p, gens[k - 1], gens[k]) {
      var j := k - 1;
      assert Linked(rng, cfg, p, gens[j], gens[k], h[j], h[k]);
    }
  }

  /**
   * `best` is a genuine record for the evaluated, full-size population `pop`: a chromosome
   * of the right length, its stored fitness is its real fitness, and nobody in `pop` beats it.
   */
  ghost predicate Champion(p: Problem, cfg: Config, pop: seq<Individual>, best: Individual)
  {
    && |pop| == cfg.populationSize > 0
    && Shaped(pop, ChromosomeLength(p))
    && Evaluated(p, pop)
    && (p.numAntennas == 0 || p.bitsPerCoord > 0)
    && |best.genes| == ChromosomeLength(p)
    && CalculateFitness(p, best.genes) == Ok(best.fitness)
    && forall j :: 0 <= j < |pop| ==> pop[j].fitness <= best.fitness
  }

  /**
   * `best` is the first maximum of the generation in which the record was last set,
   * `stagnant` generations before the current one.
   */
  ghost predicate SetAt(gens: seq<seq<Individual>>, best: Individual, stagnant: int)
  {
    0 <= stagnant < |gens| && |gens[|gens| - 1 - stagnant]| > 0 && best == Top(gens[|gens| - 1 - stagnant])
  }

  /** The best-so-far update keeps `SetAt` when the next generation is appended. */
  lemma ResetOrKeep(gens: seq<seq<Individual>>, best: Individual, stagnant: int, next: seq<Individual>)
    requires SetAt(gens, best, stagnant) && |next| > 0
    ensures var (best', stagnant') := UpdateBest(best, stagnant, Top(next));
      SetAt(gens + [next], best', stagnant')
  {
    var g := gens + [next];
    assert g[|g| - 1] == next;
    assert g[|g| - 1 - (stagnant + 1)] == gens[|gens| - 1 - stagnant];
  }

  /** The initial population: `size` chromosomes of `len` bits read from the bit stream from `start` on. */
  ghost predicate Seeded(rng: Rng, len: nat, size: nat, start: nat, pop: seq<Individual>)
  {
    |pop| == size && forall i :: 0 <= i < size ==> pop[i].genes == rng.BitWindow(start + i * len, len)
  }

  /**
   * Where the breeding loop ends: the elites followed by the offspring bred so far, at
   * least `populationSize` of them, trimmed to `populationSize`, are the specified generation.
   */
  lemma BreedingEnds(rng: Rng, cfg: Config, pop: seq<Individual>, len: nat, u: nat, q: nat,
                     young: seq<seq<Bit>>, next: seq<Individual>)
    requires rng.Valid() && Shaped(pop, len)
    requires young == Broods(rng, cfg, pop, len, Vacancies(cfg, pop), u, q)
    requires next == Elites(pop, EliteCount(cfg, pop)) + Newborn(young) && |next| >= cfg.populationSize
    ensures next[..cfg.populationSize] == NextPopulation(rng, cfg, pop, len, u, q)
  {
  }

  /**
   * What the breeding loop ends with when it resumes from `next` with the streams at u and q:
   * while fewer than `size` are there, the litter bred at u and q adds child A and, when
   * there is still room, child B.
   */
  ghost function FillFrom(rng: Rng, cfg: Config, pop: seq<Individual>, len: nat,
                          next: seq<Individual>, size: nat, u: nat, q: nat): (all: seq<Individual>)
    requires rng.Valid() && Shaped(pop, len) && Total(Weights(pop)) > 0
    decreases size - |next|
  {
    if |next| >= size then next
    else
      var l := Brood(rng, cfg, pop, len, u, q);
      var once := next + [Individual(l.childA, Unevaluated)];
      if |once| < size then FillFrom(rng, cfg, pop, len, once + [Individual(l.childB, Unevaluated)], size, l.units, l.pairs)
      else FillFrom(rng, cfg, pop, len, once, size, l.units, l.pairs)
  }

  /**
   * One turn of the filling loop: after one breeding step the rest of the filling, and
   * where the streams end, are what they were before it.
   */
  lemma FillStep(rng: Rng, cfg: Config, pop: seq<Individual>, len: nat, next: seq<Individual>, size: nat, u: nat, q: nat)
    requires rng.Valid() && Shaped(pop, len) && Total(Weights(pop)) > 0 && |next| < size
    ensures var l := Brood(rng, cfg, pop, len, u, q);
      var once := next + [Individual(l.childA, Unevaluated)];
      var next' := if |once| < size then once + [Individual(l.childB, Unevaluated)] else once;
      && FillFrom(rng, cfg, pop, len, next', size, l.units, l.pairs) == FillFrom(rng, cfg, pop, len, next, size, u, q)
      && ClutchEnd(rng, cfg, pop, len, size - |next'|, l.units, l.pairs) == ClutchEnd(rng, cfg, pop, len, size - |next|, u, q)
  {
  }

  /** The first breeding step of a clutch of two or more contributes its two children, unevaluated. */
  lemma NewbornClutch(rng: Rng, cfg: Config, pop: seq<Individual>, len: nat, n: nat, u: nat, q: nat)
    requires rng.Valid() && Shaped(pop, len) && Total(Weights(pop)) > 0 && n >= 2
    ensures var l := Brood(rng, cfg, pop, len, u, q);
      Newborn(Clutch(rng, cfg, pop, len, n, u, q))
        == [Individual(l.childA, Unevaluated), Individual(l.childB, Unevaluated)]
           + Newborn(Clutch(rng, cfg, pop, len, n - 2, l.units, l.pairs))
  {
    var l := Brood(rng, cfg, pop, len, u, q);
    var rest := Clutch(rng, cfg, pop, len, n - 2, l.units, l.pairs);
    assert Clutch(rng, cfg, pop, len, n, u, q) == [l.childA, l.childB] + rest;
    NewbornConcat([l.childA, l.childB], rest);
  }

  /** With one place left, the breeding loop appends child A of the next breeding step and stops. */
  lemma FillFromLast(rng: Rng, cfg: Config, pop: seq<Individual>, len: nat,
                     next: seq<Individual>, size: nat, u: nat, q: nat)
    requires rng.Valid() && Shaped(pop, len) && Total(Weights(pop)) > 0 && |next| + 1 == size
    ensures FillFrom(rng, cfg, pop, len, next, size, u, q) == next + Newborn(Clutch(rng, cfg, pop, len, 1, u, q))
  {
    var l := Brood(rng, cfg, pop, len, u, q);
    var once := next + [Individual(l.childA, Unevaluated)];
    assert FillFrom(rng, cfg, pop, len, next, size, u, q) == FillFrom(rng, cfg, pop, len, once, size, l.units, l.pairs);
    assert Clutch(rng, cfg, pop, len, 1, u, q) == [l.childA];
    assert Newborn([l.childA]) == [Individual(l.childA, Unevaluated)];
  }

  /** Resumed from `next`, the breeding loop appends the offspring bred from u and q up to `size`. */
  lemma {:induction false} FillFromClutch(rng: Rng, cfg: Config, pop: seq<Individual>, len: nat,
                                          next: seq<Individual>, size: nat, u: nat, q: nat)
    requires rng.Valid() && Shaped(pop, len) && Total(Weights(pop)) > 0 && |next| <= size
    ensures FillFrom(rng, cfg, pop, len, next, size, u, q) == next + Newborn(Clutch(rng, cfg, pop, len, size - |next|, u, q))
    decreases size - |next|, 1
  {
    var rem := size - |next|;
    if rem == 0 {
      assert next + Newborn([]) == next;
    } else if rem == 1 {
      FillFromLast(rng, cfg, pop, len, next, size, u, q);
    } else {
      FillFromPair(rng, cfg, pop, len, next, size, u, q);
    }
  }

  /** With two places or more left, the breeding loop appends both children and resumes. */
  lemma {:induction false} FillFromPair(rng: Rng, cfg: Config, pop: seq<Individual>, len: nat,
                                        next: seq<Individual>, size: nat, u: nat, q: nat)
    requires rng.Valid() && Shaped(pop, len) && Total(Weights(pop)) > 0 && |next| + 2 <= size
    ensures FillFrom(rng, cfg, pop, len, next, size, u, q) == next + Newborn(Clutch(rng, cfg, pop, len, size - |next|, u, q))
    decreases size - |next|, 0
  {
    var rem := size - |next|;
    var l := Brood(rng, cfg, pop, len, u, q);
    var a, b := Individual(l.childA, Unevaluated), Individual(l.childB, Unevaluated);
    var twice := next + [a] + [b];
    var rest := Clutch(rng, cfg, pop, len, rem - 2, l.units, l.pairs);
    FillStep(rng, cfg, pop, len, next, size, u, q);
    assert size - |twice| == rem - 2;
    FillFromClutch(rng, cfg, pop, len, twice, size, l.units, l.pairs);
    NewbornClutch(rng, cfg, pop, len, rem, u, q);
    assert twice + Newborn(rest) == next + ([a, b] + Newborn(rest));
  }

  /** Newborn individuals of two runs of chromosomes, one after the other. */
  lemma NewbornConcat(x: seq<seq<Bit>>, y: seq<seq<Bit>>)
    ensures Newborn(x + y) == Newborn(x) + Newborn(y)
  {
    assert forall k :: 0 <= k < |x| + |y| ==> Newborn(x + y)[k] == (Newborn(x) + Newborn(y))[k];
  }

  /** The best returned from a chronicled run is at least as fit as every individual of every generation. */
  lemma BestEver(rng: Rng, cfg: Config, p: Problem, gens: seq<seq<Individual>>, h: seq<Step>, best: Individual)
    requires rng.Valid() && Chronicle(rng, cfg, p, gens, h) && FollowsUpdateRule(h)
    requires h[|h| - 1].best == best.fitness
    ensures forall k, j :: 0 <= k < |gens| && 0 <= j < |gens[k]| ==> gens[k][j].fitness <= best.fitness
  {
    BestIsRunningMax(h, |h| - 1);
    forall k, j | 0 <= k < |gens| && 0 <= j < |gens[k]| ensures gens[k][j].fitness <= best.fitness {
      TopIsFirstMax(gens[k]);
      assert h[k].currentBest <= best.fitness;
    }
  }

  /**
   * The state of best tracking after one generation (generation 0 is the initial population),
   * with the positions of the unit and cut-pair streams once that generation exists: where
   * the breeding of the next generation starts.
   */
  datatype Step = Step(currentBest: int, best: int, stagnant: int, units: nat, pairs: nat)

  /**
   * The best record starts at the initial maximum; it is replaced only by a strictly
   * fitter generation maximum, which resets the stagnation count; otherwise the count grows by one.
   */
  ghost predicate FollowsUpdateRule(h: seq<Step>)
  {
    && |h| >= 1
    && h[0].best == h[0].currentBest && h[0].stagnant == 0
    && forall j :: 0 < j < |h| ==> NextStep(h[j - 1].best, h[j - 1].stagnant, h[j])
  }

  /** One application of the update rule to the previous step. */
  ghost predicate NextStep(best: int, stagnant: int, s: Step)
  {
    if s.currentBest > best then s.best == s.currentBest && s.stagnant == 0
    else s.best == best && s.stagnant == stagnant + 1
  }

  /**
   * The history so far follows the rule and ends in the step (genMax, best, stagnant);
   * with elitism its generation maxima never fall.
   */
  ghost predicate Tracked(h: seq<Step>, genMax: int, best: int, stagnant: int, elitist: bool)
  {
    && FollowsUpdateRule(h)
    && h[|h| - 1].currentBest == genMax && h[|h| - 1].best == best && h[|h| - 1].stagnant == stagnant
    && (elitist ==> MaximaNeverDecrease(h))
  }

  /** Every generation so far left the stagnation count below the limit. */
  ghost predicate BelowLimit(h: seq<Step>, maxStag: int)
  {
    forall j :: 0 < j < |h| ==> h[j].stagnant < maxStag
  }

  /**
   * Appending a step that follows the rule keeps the history tracked; it stays below
   * the limit, or the loop stops by the rule.
   */
  lemma ExtendHistory(h: seq<Step>, genMax: int, best: int, stagnant: int, elitist: bool, s: Step,
                      maxGen: nat, maxStag: int)
    requires Tracked(h, genMax, best, stagnant, elitist) && NextStep(best, stagnant, s)
    requires elitist ==> genMax <= s.currentBest
    requires BelowLimit(h, maxStag) && |h| <= maxGen
    ensures Tracked(h + [s], s.currentBest, s.best, s.stagnant, elitist)
    ensures s.stagnant < maxStag ==> BelowLimit(h + [s], maxStag)
    ensures s.stagnant >= maxStag ==> StopsByRule(h + [s], maxGen, maxStag)
  {
    assert (h + [s])[..|h|] == h;
  }

  /** Running through all `maxGen` generations below the limit also stops by the rule. */
  lemma FullRunStops(h: seq<Step>, maxGen: nat, maxStag: int)
    requires BelowLimit(h, maxStag) && |h| == maxGen + 1
    ensures StopsByRule(h, maxGen, maxStag)
  {
  }

  /**
   * At most `maxGen` generations; every generation before the last left the count
   * below the limit; stopping before `maxGen` means the last one reached it.
   */
  ghost predicate StopsByRule(h: seq<Step>, maxGen: nat, maxStag: int)
  {
    && 1 <= |h| <= maxGen + 1
    && (forall j :: 0 < j < |h| - 1 ==> h[j].stagnant < maxStag)
    && (|h| - 1 < maxGen ==> |h| >= 2 && h[|h| - 1].stagnant >= maxStag)
  }

  /** The generation maxima never fall: what elitism guarantees once at least one elite is kept. */
  ghost predicate MaximaNeverDecrease(h: seq<Step>)
  {
    forall j :: 0 < j < |h| ==> h[j - 1].currentBest <= h[j].currentBest
  }

  /** Stagnation counts are never negative and never exceed the generation number. */
  lemma {:induction false} StagnantInRange(h: seq<Step>, k: nat)
    requires FollowsUpdateRule(h) && k < |h|
    ensures 0 <= h[k].stagnant <= k
  {
    if k > 0 {
      StagnantInRange(h, k - 1);
    }
  }

  /** The best record never decreases from one generation to a later one. */
  lemma {:induction false} BestNeverDecreases(h: seq<Step>, j: nat, k: nat)
    requires FollowsUpdateRule(h) && j <= k < |h|
    ensures h[j].best <= h[k].best
  {
    if j < k {
      BestNeverDecreases(h, j, k - 1);
      assert NextStep(h[k - 1].best, h[k - 1].stagnant, h[k]);
    }
  }

  /** The record after generation `k` is the maximum of the generation maxima so far. */
  lemma {:induction false} BestIsRunningMax(h: seq<Step>, k: nat)
    requires FollowsUpdateRule(h) && k < |h|
    ensures forall j :: 0 <= j <= k ==> h[j].currentBest <= h[k].best
    ensures exists j :: 0 <= j <= k && h[j].currentBest == h[k].best
  {
    if k > 0 {
      BestIsRunningMax(h, k - 1);
      assert NextStep(h[k - 1].best, h[k - 1].stagnant, h[k]);
      if h[k].currentBest <= h[k - 1].best {
        var j :| 0 <= j <= k - 1 && h[j].currentBest == h[k - 1].best;
        assert h[j].currentBest == h[k].best;
      }
    }
  }

  /**
   * A count of `s` after generation `k` means the last `s` generations did not beat the
   * record, which was set at generation `k - s` (the initial one, or a strict improvement).
   */
  lemma {:induction false} StagnationMeansNoImprovement(h: seq<Step>, k: nat)
    requires FollowsUpdateRule(h) && k < |h|
    ensures 0 <= h[k].stagnant <= k
    ensures forall j :: k - h[k].stagnant < j <= k ==> h[j].currentBest <= h[j - 1].best && h[j].best == h[k].best
    ensures h[k - h[k].stagnant].best == h[k].best
    ensures k - h[k].stagnant == 0 || h[k - h[k].stagnant].currentBest > h[k - h[k].stagnant - 1].best
  {
    StagnantInRange(h, k);
    if k > 0 {
      StagnationMeansNoImprovement(h, k - 1);
      assert NextStep(h[k - 1].best, h[k - 1].stagnant, h[k]);
    }
  }

  /** With a positive limit, the stagnation count never passes the limit. */
  lemma StagnationBounded(h: seq<Step>, maxGen: nat, maxStag: int)
    requires FollowsUpdateRule(h) && StopsByRule(h, maxGen, maxStag) && maxStag >= 1
    ensures forall j :: 0 <= j < |h| ==> h[j].stagnant <= maxStag
  {
    forall j | 0 < j < |h| ensures h[j].stagnant <= maxStag {
      assert NextStep(h[j - 1].best, h[j - 1].stagnant, h[j]);
      if j - 1 > 0 {
        assert h[j - 1].stagnant < maxStag;
      }
    }
  }

  /** A limit of 0 (or less) stops the loop right after generation 1, if there is one. */
  lemma ZeroLimitStopsAfterOne(h: seq<Step>, maxGen: nat, maxStag: int)
    requires FollowsUpdateRule(h) && StopsByRule(h, maxGen, maxStag) && maxStag <= 0 && maxGen >= 1
    ensures |h| == 2
  {
    if |h| >= 2 {
      StagnantInRange(h, 1);
    }
  }

  class GeneticAlgorithm {
    const problem: Problem
    const config: Config
    const rng: Rng
    var population: seq<Individual>
    var generationsRun: nat

    constructor (problem: Problem, config: Config, rng: Rng)
      ensures this.problem == problem && this.config == config && this.rng == rng
      ensures population == [] && generationsRun == 0
    {
      this.problem, this.config, this.rng := problem, config, rng;
      population, generationsRun := [], 0;
    }

    /** `populationSize` chromosomes of random bits, taken from the bit stream in order. */
    method InitializePopulation()
      modifies this`population, rng`bits
      ensures |population| == config.populationSize
      ensures Shaped(population, ChromosomeLength(problem))
      ensures forall i :: 0 <= i < |population| ==>
        population[i] == Individual(rng.BitWindow(old(rng.bits) + i * ChromosomeLength(problem),
                                                  ChromosomeLength(problem)), Unevaluated)
      ensures rng.bits == old(rng.bits) + config.populationSize * ChromosomeLength(problem)
    {
      var length := ChromosomeLength(problem);
      var pop: seq<Individual> := [];
      for i := 0 to config.populationSize
        invariant |pop| == i
        invariant rng.bits == old(rng.bits) + i * length
        invariant forall j :: 0 <= j < i ==>
          pop[j] == Individual(rng.BitWindow(old(rng.bits) + j * length, length), Unevaluated)
      {
        var genes: seq<Bit> := [];
        ghost var start := rng.bits;
        for g := 0 to length
          invariant rng.bits == start + g
          invariant genes == rng.BitWindow(start, g)
        {
          var b := rng.RandBit();
          genes := genes + [b];
        }
        pop := pop + [Individual(genes, Unevaluated)];
        MulSucc(i, length);
      }
      population := pop;
    }

    /** Stores in every individual the fitness of its genes; fails with the first decoding error. */
    method Evaluate() returns (r: Outcome<EngineError>)
      modifies this`population
      ensures |population| == |old(population)|
      ensures forall i :: 0 <= i < |population| ==> population[i].genes == old(population[i].genes)
      ensures r.Pass? <==> forall i :: 0 <= i < |population| ==> CalculateFitness(problem, population[i].genes).Ok?
      ensures r.Pass? ==> Evaluated(problem, population)
      ensures r.Fail? ==> (r.error.FitnessError? &&
        exists i :: 0 <= i < |population| && CalculateFitness(problem, population[i].genes) == Err(r.error.cause))
    {
      for i := 0 to |population|
        invariant |population| == |old(population)|
        invariant forall j :: 0 <= j < |population| ==> population[j].genes == old(population[j].genes)
        invariant forall j :: 0 <= j < i ==> CalculateFitness(problem, population[j].genes) == Ok(population[j].fitness)
      {
        var f := CalculateFitness(problem, population[i].genes);
        if f.Err? {
          return Fail(FitnessError(f.error));
        }
        population := population[i := population[i].(fitness := f.value)];
      }
      return Pass;
    }

    /** Roulette selection over the current population, weights max(fitness, 0). */
    method Select() returns (r: Result<Individual, EngineError>)
      requires rng.Valid()
      modifies rng`units
      ensures var pick := Roulette(Weights(population), rng.unit(old(rng.units)));
        (r.Ok? <==> pick.Ok?) &&
        (r.Ok? ==> r.value == population[pick.value] && rng.units == old(rng.units) + 1) &&
        (r.Err? ==> r.error == ZeroTotalWeight && rng.units == old(rng.units))
    {
      var weights := Weights(population);
      if Total(weights) == 0 {
        return Err(ZeroTotalWeight);
      }
      var u := rng.Random();
      return Ok(population[Bisect(weights, Scaled(u, Total(weights)), 0)]);
    }

    /** Two-point crossover; the cut points are drawn only for chromosomes of length 3 or more. */
    method CrossoverGenes(a: seq<Bit>, b: seq<Bit>) returns (c1: seq<Bit>, c2: seq<Bit>)
      requires rng.Valid() && |a| == |b|
      modifies rng`pairs
      ensures var cut := rng.pair(old(rng.pairs), |a|);
        (c1, c2) == Crossover(a, b, cut.0, cut.1)
      ensures rng.pairs == old(rng.pairs) + (if |a| < 3 then 0 else 1)
    {
      if |a| < 3 {
        return a, b;
      }
      var p1, p2 := rng.SampleCut(|a|);
      var children := Crossover(a, b, p1, p2);
      c1, c2 := children.0, children.1;
    }

    /** Bit-flip mutation in place: gene i is inverted when the i-th draw is below the mutation rate. */
    method Mutate(genes: array<Bit>)
      requires rng.Valid()
      modifies genes, rng`units
      ensures genes[..] == Flipped(old(genes[..]), rng.UnitWindow(old(rng.units), genes.Length), config.mutationRate)
      ensures rng.units == old(rng.units) + genes.Length
    {
      ghost var start := rng.units;
      for i := 0 to genes.Length
        invariant rng.units == start + i
        invariant forall k :: 0 <= k < i ==>
          genes[k] == if rng.unit(start + k) < config.mutationRate then 1 - old(genes[k]) else old(genes[k])
        invariant forall k :: i <= k < genes.Length ==> genes[k] == old(genes[k])
      {
        var u := rng.Random();
        if u < config.mutationRate {
          genes[i] := 1 - genes[i];
        }
      }
      assert genes[..] == Flipped(old(genes[..]), rng.UnitWindow(start, genes.Length), config.mutationRate);
    }

    /** A mutated copy of `genes`: the child's own gene buffer, flipped in place. */
    method MutatedCopy(genes: seq<Bit>) returns (child: seq<Bit>)
      requires rng.Valid()
      modifies rng`units
      ensures child == Flipped(genes, rng.UnitWindow(old(rng.units), |genes|), config.mutationRate)
      ensures rng.units == old(rng.units) + |genes|
    {
      var buffer := new Bit[|genes|](i requires 0 <= i < |genes| => genes[i]);
      assert buffer[..] == genes;
      Mutate(buffer);
      child := buffer[..];
    }

    /** Crossover when the coin is below the crossover rate; copies of the parents otherwise. */
    method Recombine(a: seq<Bit>, b: seq<Bit>) returns (c: (seq<Bit>, seq<Bit>))
      requires rng.Valid() && |a| == |b|
      modifies rng`units, rng`pairs
      ensures var cut := rng.pair(old(rng.pairs), |a|);
        c == if rng.unit(old(rng.units)) < config.crossoverRate then Crossover(a, b, cut.0, cut.1) else (a, b)
      ensures |c.0| == |a| && |c.1| == |a|
      ensures rng.units == old(rng.units) + 1
      ensures rng.pairs == old(rng.pairs) + (if rng.unit(old(rng.units)) < config.crossoverRate && |a| >= 3 then 1 else 0)
    {
      var coin := rng.Random();
      if coin < config.crossoverRate {
        var c1, c2 := CrossoverGenes(a, b);
        c := (c1, c2);
      } else {
        c := (a, b);
      }
    }

    /**
     * The two children of parents `a` and `b`: recombined, then each mutated by the next
     * draws, child A first; the streams end where `Offspring` says.
     */
    method Children(a: seq<Bit>, b: seq<Bit>) returns (childA: seq<Bit>, childB: seq<Bit>)
      requires rng.Valid() && |a| == |b|
      modifies rng`units, rng`pairs
      ensures Litter(childA, childB, rng.units, rng.pairs) ==
        Offspring(rng, config, a, b, old(rng.units), old(rng.pairs))
    {
      var crossed := Recombine(a, b);
      childA := MutatedCopy(crossed.0);
      childB := MutatedCopy(crossed.1);
    }

    /** Two roulette-selected parents recombined and mutated into two children. */
    method Mate() returns (r: Result<(seq<Bit>, seq<Bit>), EngineError>)
      requires rng.Valid() && Shaped(population, ChromosomeLength(problem))
      modifies rng`units, rng`pairs
      ensures r.Err? <==> Total(Weights(population)) == 0
      ensures r.Err? ==> r.error == ZeroTotalWeight && rng.units == old(rng.units) && rng.pairs == old(rng.pairs)
      ensures r.Ok? ==> (Litter(r.value.0, r.value.1, rng.units, rng.pairs) ==
        Brood(rng, config, population, ChromosomeLength(problem), old(rng.units), old(rng.pairs)))
    {
      var parent1 := Select();
      if parent1.Err? {
        return Err(parent1.error);
      }
      var parent2 := Select();
      assert parent2.Ok?;
      var childA, childB := Children(parent1.value.genes, parent2.value.genes);
      return Ok((childA, childB));
    }

    /**
     * The next generation: the elites (best first, stable on ties), then offspring
     * until `populationSize` is reached, trimmed to exactly that size.
     */
    method Breed() returns (r: Result<seq<Individual>, EngineError>)
      requires rng.Valid() && Shaped(population, ChromosomeLength(problem))
      modifies rng`units, rng`pairs
      ensures r.Err? <==> Total(Weights(population)) == 0 && EliteCount(config, population) < config.populationSize
      ensures r.Err? ==> r.error == ZeroTotalWeight && rng.units == old(rng.units) && rng.pairs == old(rng.pairs)
      ensures r.Ok? ==> (rng.units, rng.pairs) == BreedEnd(rng, config, population, ChromosomeLength(problem),
                                                           old(rng.units), old(rng.pairs))
      ensures r.Ok? ==> r.value == NextPopulation(rng, config, population, ChromosomeLength(problem),
                                                  old(rng.units), old(rng.pairs))
      ensures r.Ok? ==> |r.value| == config.populationSize
      ensures r.Ok? ==> Shaped(r.value, ChromosomeLength(problem))
      ensures r.Ok? ==> forall k :: 0 <= k < Min(EliteCount(config, population), config.populationSize) ==>
        r.value[k] == population[RankOrder(Fitnesses(population))[k]]
      ensures r.Ok? ==> forall k :: EliteCount(config, population) <= k < config.populationSize ==>
        r.value[k].fitness == Unevaluated
    {
      var m := EliteCount(config, population);
      var elites := Elites(population, m);
      ghost var u0, q0 := rng.units, rng.pairs;
      var next := FillUp(elites);
      if next.Err? {
        return Err(next.error);
      }
      BreedingEnds(rng, config, population, ChromosomeLength(problem), u0, q0,
                   Broods(rng, config, population, ChromosomeLength(problem), Vacancies(config, population), u0, q0),
                   next.value);
      NextPopulationShape(rng, config, population, ChromosomeLength(problem), u0, q0);
      return Ok(next.value[..config.populationSize]);
    }

    /**
     * The breeding loop: offspring appended to `elites` two at a time (only the first of
     * the last pair when one place is left) until there are `populationSize` individuals.
     */
    method FillUp(elites: seq<Individual>) returns (r: Result<seq<Individual>, EngineError>)
      requires rng.Valid() && Shaped(population, ChromosomeLength(problem))
      requires elites == Elites(population, EliteCount(config, population))
      modifies rng`units, rng`pairs
      ensures r.Err? <==> Total(Weights(population)) == 0 && EliteCount(config, population) < config.populationSize
      ensures r.Err? ==> r.error == ZeroTotalWeight && rng.units == old(rng.units) && rng.pairs == old(rng.pairs)
      ensures r.Ok? ==> (rng.units, rng.pairs) == BreedEnd(rng, config, population, ChromosomeLength(problem),
                                                           old(rng.units), old(rng.pairs))
      ensures r.Ok? ==> |r.value| >= config.populationSize
      ensures r.Ok? ==> r.value == elites + Newborn(Broods(rng, config, population, ChromosomeLength(problem),
                                                           Vacancies(config, population), old(rng.units), old(rng.pairs)))
    {
      var size := config.populationSize;
      var next := elites;
      ghost var len := ChromosomeLength(problem);
      ghost var u0, q0 := rng.units, rng.pairs;
      while |next| < size
        invariant |elites| <= |next| && (|elites| < size ==> |next| <= size)
        invariant Total(Weights(population)) == 0 ==> next == elites && rng.units == u0 && rng.pairs == q0
        invariant Total(Weights(population)) > 0 ==>
          FillFrom(rng, config, population, len, next, size, rng.units, rng.pairs)
          == FillFrom(rng, config, population, len, elites, size, u0, q0)
        invariant Total(Weights(population)) > 0 ==>
          ClutchEnd(rng, config, population, len, if |next| < size then size - |next| else 0, rng.units, rng.pairs)
          == ClutchEnd(rng, config, population, len, Vacancies(config, population), u0, q0)
        decreases size - |next|
      {
        ghost var u, q := rng.units, rng.pairs;
        var children := Mate();
        if children.Err? {
          return Err(children.error);
        }
        FillStep(rng, config, population, len, next, size, u, q);
        next := next + [Individual(children.value.0, Unevaluated)];
        if |next| < size {
          next := next + [Individual(children.value.1, Unevaluated)];
        }
      }
      assert Vacancies(config, population) == if |elites| < size then size - |elites| else 0;
      if Total(Weights(population)) > 0 {
        assert FillFrom(rng, config, population, len, next, size, rng.units, rng.pairs) == next;
        if |elites| < size {
          FillFromClutch(rng, config, population, len, elites, size, u0, q0);
        } else {
          assert elites + Newborn([]) == elites;
        }
      } else {
        assert elites + Newborn([]) == elites;
      }
      return Ok(next);
    }

    /**
     * Breeds the next generation, makes it the population and evaluates it. With at
     * least one elite, the new first individual is the old first maximum, fitness unchanged.
     */
    method NextGeneration() returns (r: Outcome<EngineError>)
      requires rng.Valid() && Shaped(population, ChromosomeLength(problem))
      requires |population| == config.populationSize && Evaluated(problem, population)
      requires problem.numAntennas == 0 || problem.bitsPerCoord > 0
      modifies this`population, rng`units, rng`pairs
      ensures r.Fail? <==> Total(Weights(old(population))) == 0 && config.elitismCount < config.populationSize
      ensures r.Fail? ==> r.error == ZeroTotalWeight && population == old(population)
      ensures r.Fail? ==> rng.units == old(rng.units) && rng.pairs == old(rng.pairs)
      ensures r.Pass? ==> (rng.units, rng.pairs) == BreedEnd(rng, config, old(population), ChromosomeLength(problem),
                                                             old(rng.units), old(rng.pairs))
      ensures r.Pass? ==>
        && |population| == config.populationSize
        && Shaped(population, ChromosomeLength(problem))
        && Regenerated(problem, population, NextPopulation(rng, config, old(population), ChromosomeLength(problem),
                                                           old(rng.units), old(rng.pairs)))
      ensures r.Pass? && config.elitismCount > 0 && config.populationSize > 0 ==>
        population[0].fitness == old(population[FirstMax(Fitnesses(population)).value].fitness)
    {
      ghost var previous := population;
      var next := Breed();
      if next.Err? {
        return Fail(next.error);
      }
      if config.elitismCount > 0 && config.populationSize > 0 {
        RankHeadIsFirstMax(Fitnesses(previous));
      }
      population := next.value;
      var e := Evaluate();
      forall j | 0 <= j < |population| ensures CalculateFitness(problem, population[j].genes).Ok? {
        DecodeSucceeds(problem, population[j].genes);
      }
      assert e.Pass?;
      return Pass;
    }

    /** The population after an evaluation inside the loop: full size, well shaped, evaluated. */
    ghost predicate Ready()
      reads this
    {
      && |population| == config.populationSize > 0
      && Shaped(population, ChromosomeLength(problem))
      && Evaluated(problem, population)
      && (problem.numAntennas == 0 || problem.bitsPerCoord > 0)
    }

    /** `best` is a genuine record for the current population. */
    ghost predicate Record(best: Individual)
      reads this
    {
      Champion(problem, config, population, best)
    }

    /** The generation maximum (first on ties) is a genuinely evaluated individual at least as fit as all. */
    method CurrentBest() returns (current: Individual)
      requires Ready()
      ensures |current.genes| == ChromosomeLength(problem)
      ensures CalculateFitness(problem, current.genes) == Ok(current.fitness)
      ensures forall j :: 0 <= j < |population| ==> population[j].fitness <= current.fitness
      ensures current == Top(population)
    {
      current := population[FirstMax(Fitnesses(population)).value];
      TopIsFirstMax(population);
      assert forall j :: 0 <= j < |population| ==> population[j].fitness == Fitnesses(population)[j];
    }

    /**
     * Initial population, evaluated; the initial best is its first maximal individual.
     * It fails exactly on an empty population or on empty coordinate fields.
     */
    method Start() returns (r: Result<Individual, EngineError>)
      requires rng.Valid()
      modifies this`population, rng`bits
      ensures Seeded(rng, ChromosomeLength(problem), config.populationSize, old(rng.bits), population)
      ensures r.Err? <==> config.populationSize == 0 || (problem.numAntennas > 0 && problem.bitsPerCoord == 0)
      ensures r.Err? ==> r.error == if config.populationSize == 0 then EmptyPopulation else FitnessError(EmptyBitString)
      ensures r.Ok? ==> Record(r.value) && r.value == Top(population)
    {
      InitializePopulation();
      var e := Evaluate();
      if e.Fail? {
        if config.populationSize > 0 {
          DecodeSucceeds(problem, population[0].genes);
        }
        return Err(e.error);
      }
      if |population| == 0 {
        return Err(EmptyPopulation);
      }
      DecodeSucceeds(problem, population[0].genes);
      var best := CurrentBest();
      return Ok(best);
    }

    /** Fitness of the current generation's maximum. */
    ghost function GenerationMax(): int
      reads this
      requires |population| > 0
    {
      Top(population).fitness
    }

    /**
     * The loop's state: `gens` are the generations gone through and `h` their steps;
     * `best` is the record for the current generation, the last of `gens`, set as many
     * generations ago as the last step's stagnation count; the history follows the update
     * rule and ends in (current maximum, best, stagnation count).
     */
    ghost predicate Tracking(best: Individual, gens: seq<seq<Individual>>, h: seq<Step>)
    {
      && rng.Valid()
      && Chain(rng, config, problem, gens, h) && |gens| > 0
      && Champion(problem, config, gens[|gens| - 1], best)
      && Tracked(h, Top(gens[|gens| - 1]).fitness, best.fitness, h[|h| - 1].stagnant, config.elitismCount > 0)
      && SetAt(gens, best, h[|h| - 1].stagnant)
    }

    /** The loop starts from the initial generation alone, its first maximum the record. */
    lemma TrackingStarts(best: Individual, pop: seq<Individual>, u: nat, q: nat)
      requires rng.Valid() && Champion(problem, config, pop, best) && best == Top(pop)
      ensures Tracking(best, [pop], [Step(best.fitness, best.fitness, 0, u, q)])
    {
      assert [pop][..0] == [];
    }

    /** What the loop's state gives once the loop has ended with `best`. */
    lemma TrackingEnds(best: Individual, gens: seq<seq<Individual>>, h: seq<Step>)
      requires Tracking(best, gens, h)
      ensures Chronicle(rng, config, problem, gens, h)
      ensures Champion(problem, config, gens[|gens| - 1], best) && SetAt(gens, best, h[|h| - 1].stagnant)
      ensures forall k, j :: 0 <= k < |gens| && 0 <= j < |gens[k]| ==> gens[k][j].fitness <= best.fitness
      ensures FollowsUpdateRule(h) && h[|h| - 1].best == best.fitness
      ensures config.elitismCount > 0 ==> MaximaNeverDecrease(h)
    {
      ChainIsChronicle(rng, config, problem, gens, h);
      BestEver(rng, config, problem, gens, h, best);
    }

    /**
     * Appending a generation bred from the current one, and its step under the update
     * rule, keeps the loop's state; it stays below the limit or stops by the rule.
     */
    lemma TrackingAdvances(best: Individual, stagnant: int, gens: seq<seq<Individual>>, h: seq<Step>,
                           next: seq<Individual>, step: Step)
      requires Tracking(best, gens, h) && h[|h| - 1].stagnant == stagnant
      requires BelowLimit(h, config.maxStagnantGenerations) && |h| <= config.maxGenerations
      requires |next| == config.populationSize && Shaped(next, ChromosomeLength(problem))
      requires Regenerated(problem, next, NextPopulation(rng, config, gens[|gens| - 1], ChromosomeLength(problem),
                                                         h[|h| - 1].units, h[|h| - 1].pairs))
      requires (step.units, step.pairs) == BreedEnd(rng, config, gens[|gens| - 1], ChromosomeLength(problem),
                                                    h[|h| - 1].units, h[|h| - 1].pairs)
      requires config.elitismCount > 0 ==> Top(gens[|gens| - 1]).fitness <= Top(next).fitness
      requires step.currentBest == Top(next).fitness
      requires step.best == UpdateBest(best, stagnant, Top(next)).0.fitness
      requires step.stagnant == UpdateBest(best, stagnant, Top(next)).1
      ensures Tracking(UpdateBest(best, stagnant, Top(next)).0, gens + [next], h + [step])
      ensures step.stagnant < config.maxStagnantGenerations ==> BelowLimit(h + [step], config.maxStagnantGenerations)
      ensures step.stagnant >= config.maxStagnantGenerations ==>
        StopsByRule(h + [step], config.maxGenerations, config.maxStagnantGenerations)
    {
      var top := Top(next);
      TopIsFirstMax(next);
      assert CalculateFitness(problem, top.genes) == Ok(top.fitness);
      ExtendHistory(h, Top(gens[|gens| - 1]).fitness, best.fitness, stagnant, config.elitismCount > 0, step,
                    config.maxGenerations, config.maxStagnantGenerations);
      ExtendChain(rng, config, problem, gens, h, next, step);
      ResetOrKeep(gens, best, stagnant, next);
    }

    /**
     * One generation of the loop: breed and evaluate, then update the best record with
     * the generation maximum, appending the new generation to `gens` and its step to `h`.
     */
    method Advance(best: Individual, stagnant: int, ghost gens: seq<seq<Individual>>, ghost h: seq<Step>)
      returns (r: Result<(Individual, int), EngineError>, ghost gens': seq<seq<Individual>>, ghost h': seq<Step>)
      requires Tracking(best, gens, h) && h[|h| - 1].stagnant == stagnant && gens[|gens| - 1] == population
      requires h[|h| - 1].units == rng.units && h[|h| - 1].pairs == rng.pairs
      requires BelowLimit(h, config.maxStagnantGenerations) && |h| <= config.maxGenerations
      modifies this`population, rng`units, rng`pairs
      ensures r.Err? <==> Total(Weights(old(population))) == 0 && config.elitismCount < config.populationSize
      ensures r.Err? ==> r.error == ZeroTotalWeight && population == old(population) && gens' == gens && h' == h
      ensures r.Err? ==> rng.units == old(rng.units) && rng.pairs == old(rng.pairs)
      ensures r.Ok? ==> (rng.units, rng.pairs) == BreedEnd(rng, config, old(population), ChromosomeLength(problem),
                                                           old(rng.units), old(rng.pairs))
      ensures r.Err? ==> Total(Weights(population)) == 0 && config.elitismCount < config.populationSize
      ensures r.Ok? ==> Regenerated(problem, population, NextPopulation(rng, config, old(population),
                                      ChromosomeLength(problem), old(rng.units), old(rng.pairs)))
      ensures r.Ok? ==> r.value == UpdateBest(best, stagnant, Top(population))
      ensures r.Ok? ==> gens' == gens + [population] && h' == h + [Step(GenerationMax(), r.value.0.fitness, r.value.1, rng.units, rng.pairs)]
      ensures r.Ok? ==> Tracking(r.value.0, gens', h')
      ensures r.Ok? && r.value.1 < config.maxStagnantGenerations ==> BelowLimit(h', config.maxStagnantGenerations)
      ensures r.Ok? && r.value.1 >= config.maxStagnantGenerations ==>
        StopsByRule(h', config.maxGenerations, config.maxStagnantGenerations)
    {
      ghost var previous := GenerationMax();
      TopIsFirstMax(population);
      var ok := NextGeneration();
      if ok.Fail? {
        return Err(ok.error), gens, h;
      }
      var generationBest := CurrentBest();
      assert population[0].fitness <= generationBest.fitness;
      var updated := UpdateBest(best, stagnant, generationBest);
      ghost var step := Step(generationBest.fitness, updated.0.fitness, updated.1, rng.units, rng.pairs);
      TrackingAdvances(best, stagnant, gens, h, population, step);
      return Ok(updated), gens + [population], h + [step];
    }

    /**
     * The generational loop. Returns the best individual found, with the ghost `gens`, the
     * generations gone through, and `history`, per generation its maximum, the best so far,
     * the stagnation count and the stream positions once it exists.
     */
    method Run() returns (r: Result<Individual, EngineError>, ghost gens: seq<seq<Individual>>, ghost history: seq<Step>)
      requires rng.Valid()
      modifies this, rng`bits, rng`units, rng`pairs
      ensures generationsRun <= config.maxGenerations || generationsRun == old(generationsRun)
      ensures r == Err(EmptyPopulation) <==> config.populationSize == 0
      ensures r == Err(FitnessError(EmptyBitString)) <==>
        config.populationSize > 0 && problem.numAntennas > 0 && problem.bitsPerCoord == 0
      ensures r.Err? ==> r.error in {EmptyPopulation, FitnessError(EmptyBitString), ZeroTotalWeight}
      ensures r == Err(ZeroTotalWeight) ==>
        config.elitismCount < config.populationSize && |gens| > 0 && Total(Weights(gens[|gens| - 1])) == 0
      ensures r == Err(ZeroTotalWeight) ==>
        |history| <= config.maxGenerations && BelowLimit(history, config.maxStagnantGenerations)
      ensures |gens| > 0 <==> r.Ok? || r == Err(ZeroTotalWeight)
      ensures |gens| > 0 ==>
        && Chain(rng, config, problem, gens, history) && Chronicle(rng, config, problem, gens, history)
        && history[0].units == old(rng.units) && history[0].pairs == old(rng.pairs)
        && history[|history| - 1].units == rng.units && history[|history| - 1].pairs == rng.pairs
        && Seeded(rng, ChromosomeLength(problem), config.populationSize, old(rng.bits), gens[0])
        && gens[|gens| - 1] == population
      ensures r.Ok? ==> Record(r.value) && SetAt(gens, r.value, history[|history| - 1].stagnant)
      ensures r.Ok? ==> forall k, j :: 0 <= k < |gens| && 0 <= j < |gens[k]| ==> gens[k][j].fitness <= r.value.fitness
      ensures r.Ok? ==> FollowsUpdateRule(history) && history[|history| - 1].best == r.value.fitness
      ensures r.Ok? ==> StopsByRule(history, config.maxGenerations, config.maxStagnantGenerations)
      ensures r.Ok? ==> generationsRun == (if |history| == 1 then old(generationsRun) else |history| - 1)
      ensures r.Ok? && config.elitismCount > 0 ==> MaximaNeverDecrease(history)
    {
      ghost var bits := rng.bits;
      var start := Start();
      if start.Err? {
        return Err(start.error), [], [];
      }
      ghost var initial := population;
      r, gens, history := Evolve(start.value);
      assert gens[0] == initial;
      if r.Ok? {
        TrackingEnds(r.value, gens, history);
      } else {
        ChainIsChronicle(rng, config, problem, gens, history);
      }
    }

    /**
     * The state of the generational loop before generation `i`: `i` generations recorded,
     * the last one the population, the best record tracked, no stop yet, and
     * `generationsRun` at `i - 1` (or where it started, before the first generation).
     */
    ghost predicate Looping(i: nat, best: Individual, stagnant: int, gens: seq<seq<Individual>>,
                            history: seq<Step>, first: seq<Individual>, run0: nat, u0: nat, q0: nat)
      reads this, rng
    {
      && |history| == i >= 1 && history[i - 1].stagnant == stagnant
      && history[0].units == u0 && history[0].pairs == q0
      && history[i - 1].units == rng.units && history[i - 1].pairs == rng.pairs
      && Tracking(best, gens, history) && gens[0] == first && gens[|gens| - 1] == population
      && BelowLimit(history, config.maxStagnantGenerations)
      && generationsRun == (if i == 1 then run0 else i - 1)
    }

    /**
     * Generation `i` of the loop: records `i` in `generationsRun` and advances one
     * generation. It fails only when selection cannot; otherwise the loop either goes on
     * from the new state or stops by the rule.
     */
    method Generation(i: nat, best: Individual, stagnant: int, ghost gens: seq<seq<Individual>>,
                      ghost history: seq<Step>, ghost first: seq<Individual>, ghost run0: nat,
                      ghost u0: nat, ghost q0: nat)
      returns (r: Result<(Individual, int), EngineError>, ghost gens': seq<seq<Individual>>, ghost history': seq<Step>)
      requires Looping(i, best, stagnant, gens, history, first, run0, u0, q0) && i <= config.maxGenerations
      modifies this`population, this`generationsRun, rng`units, rng`pairs
      ensures generationsRun == i
      ensures |gens'| > 0 && gens'[0] == first && gens'[|gens'| - 1] == population
      ensures |history'| > 0 && history'[0].units == u0 && history'[0].pairs == q0
      ensures history'[|history'| - 1].units == rng.units && history'[|history'| - 1].pairs == rng.pairs
      ensures r.Err? ==> && r.error == ZeroTotalWeight && config.elitismCount < config.populationSize
                         && Total(Weights(population)) == 0
                         && gens' == gens && history' == history
                         && |history'| == i && BelowLimit(history', config.maxStagnantGenerations)
                         && Chain(rng, config, problem, gens', history')
      ensures r.Ok? && r.value.1 < config.maxStagnantGenerations ==>
        Looping(i + 1, r.value.0, r.value.1, gens', history', first, run0, u0, q0)
      ensures r.Ok? && r.value.1 >= config.maxStagnantGenerations ==>
        && Tracking(r.value.0, gens', history')
        && StopsByRule(history', config.maxGenerations, config.maxStagnantGenerations)
        && |history'| == i + 1
    {
      generationsRun := i;
      r, gens', history' := Advance(best, stagnant, gens, history);
    }

    /** The loop proper, from the initial best individual. */
    method Evolve(initial: Individual)
      returns (r: Result<Individual, EngineError>, ghost gens: seq<seq<Individual>>, ghost history: seq<Step>)
      requires rng.Valid() && Record(initial) && initial == Top(population)
      modifies this`population, this`generationsRun, rng`units, rng`pairs
      ensures generationsRun <= config.maxGenerations || generationsRun == old(generationsRun)
      ensures r.Err? ==> && r.error == ZeroTotalWeight && config.elitismCount < config.populationSize
                         && Total(Weights(population)) == 0
      ensures r.Err? ==> |history| <= config.maxGenerations && BelowLimit(history, config.maxStagnantGenerations)
      ensures Chain(rng, config, problem, gens, history) && |gens| > 0
      ensures gens[0] == old(population) && gens[|gens| - 1] == population
      ensures history[0].units == old(rng.units) && history[0].pairs == old(rng.pairs)
      ensures history[|history| - 1].units == rng.units && history[|history| - 1].pairs == rng.pairs
      ensures r.Ok? ==> Tracking(r.value, gens, history)
      ensures r.Ok? ==> StopsByRule(history, config.maxGenerations, config.maxStagnantGenerations)
      ensures r.Ok? ==> generationsRun == (if |history| == 1 then old(generationsRun) else |history| - 1)
    {
      var best := initial;
      var stagnant := 0;
      ghost var first := population;
      ghost var u0, q0 := rng.units, rng.pairs;
      history := [Step(best.fitness, best.fitness, 0, u0, q0)];
      gens := [population];
      TrackingStarts(best, population, u0, q0);

      ghost var run0 := generationsRun;
      var failed, stopped := false, false;
      for i := 1 to config.maxGenerations + 1
        invariant Looping(i, best, stagnant, gens, history, first, run0, u0, q0)
        invariant |gens| > 0 && gens[0] == first && gens[|gens| - 1] == population
        invariant !failed && !stopped
      {
        var advanced;
        advanced, gens, history := Generation(i, best, stagnant, gens, history, first, run0, u0, q0);
        if advanced.Err? {
          failed := true;
          break;
        }
        best, stagnant := advanced.value.0, advanced.value.1;
        if stagnant >= config.maxStagnantGenerations {
          stopped := true;
          break;
        }
      }
      if !failed && !stopped {
        FullRunStops(history, config.maxGenerations, config.maxStagnantGenerations);
      }
      r := if failed then Err(ZeroTotalWeight) else Ok(best);
    }
  }
}
