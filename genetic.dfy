/** The genetic search for a beat close to a seed beat: the population of
    chromosomes read from the beat lists, roulette selection by fitness,
    and the generation loop of `getBeat`, which evaluates a population,
    returns the first good-enough beat not returned recently, and otherwise
    breeds the next generation by selection, crossover and mutation. */
module Genetic {
  import opened Basics
  import opened Xml
  import opened Features
  import opened History
  import opened Operators

  /** A beat with the fitness last computed for it. */
  datatype Chromosome = Chromosome(beat: Elem, fitness: real)

  /** The fitness a chromosome starts with before it is evaluated. */
  const Unevaluated: real := 9999.0

  /** The length of the history of returned beats. */
  const HistorySize: nat := 24

  /** The number of evaluation passes after which `getBeat` gives up. */
  const MaxGenerations: nat := 10

  /** The draws one turn of the breeding loop makes: two roulette values,
      the crossover draws and the two mutation draws. */
  datatype Round = Round(pick1: real, pick2: real, cross: CrossDraw, mut1: MutDraw, mut2: MutDraw)

  /** What `getBeat` ends with: a match it pushed onto the history, the
      first chromosome of the last generation, or (in the model only) the
      draws ran out before a generation was complete. */
  datatype Outcome = Found(beat: Elem) | Closest(beat: Elem) | OutOfDraws

  /** A value `random.random()` can return. */
  predicate IsUnit(r: real) { 0.0 <= r < 1.0 }

  predicate DrawsValid(draws: seq<Round>)
  {
    forall i :: 0 <= i < |draws| ==> IsUnit(draws[i].pick1) && IsUnit(draws[i].pick2)
  }

  // ---------------------------------------------------------------------
  // The initial population

  /** The beat lists one after the other. */
  function Flatten(pool: seq<seq<Elem>>): seq<Elem>
  {
    if pool == [] then [] else Flatten(pool[..|pool| - 1]) + pool[|pool| - 1]
  }

  /** A chromosome with fitness 9999 for each beat with more than one child. */
  function Seeded(beats: seq<Elem>): seq<Chromosome>
  {
    if beats == [] then []
    else
      var b := beats[|beats| - 1];
      Seeded(beats[..|beats| - 1]) + (if |b.children| > 1 then [Chromosome(b, Unevaluated)] else [])
  }

  /** `initChromo`, given the beat lists `getChromo` reads, one per file. */
  function InitChromo(pool: seq<seq<Elem>>): seq<Chromosome>
  {
    Seeded(Flatten(pool))
  }

  lemma {:induction false} FlattenMember(pool: seq<seq<Elem>>, b: Elem)
    ensures b in Flatten(pool) <==> exists i :: 0 <= i < |pool| && b in pool[i]
  {
    if pool != [] {
      var init := pool[..|pool| - 1];
      FlattenMember(init, b);
      if b in Flatten(init) {
        var i :| 0 <= i < |init| && b in init[i];
        assert b in pool[i];
      }
      forall i | 0 <= i < |pool| && b in pool[i] ensures b in Flatten(pool) {
        if i < |init| {
          assert init[i] == pool[i];
        }
      }
    }
  }

  lemma {:induction false} SeededMember(beats: seq<Elem>, c: Chromosome)
    ensures c in Seeded(beats) <==> c.beat in beats && c.fitness == Unevaluated && |c.beat.children| > 1
  {
    if beats != [] {
      var init := beats[..|beats| - 1];
      SeededMember(init, c);
      assert beats == init + [beats[|beats| - 1]];
    }
  }

  /** The initial population: one chromosome with fitness 9999 for every
      beat of every list that has more than one child, and nothing else. */
  lemma InitChromoMembers(pool: seq<seq<Elem>>, c: Chromosome)
    ensures c in InitChromo(pool) <==>
      && c.fitness == Unevaluated && |c.beat.children| > 1
      && exists i :: 0 <= i < |pool| && c.beat in pool[i]
  {
    SeededMember(Flatten(pool), c);
    FlattenMember(pool, c.beat);
  }

  /** Seeding keeps order: the seeds of two runs of beats, one after the
      other, are the seeds of the first run followed by those of the
      second. */
  lemma {:induction false} SeededAppend(a: seq<Elem>, b: seq<Elem>)
    ensures Seeded(a + b) == Seeded(a) + Seeded(b)
  {
    if b != [] {
      var n := |b| - 1;
      SeededAppend(a, b[..n]);
      assert (a + b)[..|a + b| - 1] == a + b[..n];
    } else {
      assert a + b == a;
    }
  }

  /** One more beat list adds its seeds, in list order, after those of the
      lists before it. */
  lemma InitChromoSnoc(pool: seq<seq<Elem>>, beats: seq<Elem>)
    ensures InitChromo(pool + [beats]) == InitChromo(pool) + Seeded(beats)
  {
    assert (pool + [beats])[..|pool|] == pool;
    SeededAppend(Flatten(pool), beats);
  }

  // ---------------------------------------------------------------------
  // Fitness and selection

  /** `checkFitness`: the Euclidean distance between the beat's features and
      the target, with the square root taken by `sqrt`. */
  function CheckFitness(target: FeatureVector, sqrt: nat -> real, beat: Elem): real
    requires Measurable(beat)
  {
    sqrt(SquaredDistance(target, beat))
  }

  /** The sum of the fitnesses, added up front to back. */
  function Total(cs: seq<Chromosome>): real
  {
    if cs == [] then 0.0 else Total(cs[..|cs| - 1]) + cs[|cs| - 1].fitness
  }

  /** The running total once the chromosome at `j` has been added. */
  function RunningAt(cs: seq<Chromosome>, j: nat): real
    requires j < |cs|
  {
    Total(cs[..j + 1])
  }

  predicate NonNegative(cs: seq<Chromosome>)
  {
    forall i :: 0 <= i < |cs| ==> cs[i].fitness >= 0.0
  }

  /** The roulette's choice for a fixed `Slice`: the position of the first
      chromosome whose running total of fitnesses reaches the slice, if
      any does. */
  function Selected(cs: seq<Chromosome>, slice: real): (r: Option<nat>)
    ensures r.Some? ==> r.value < |cs| && RunningAt(cs, r.value) >= slice
    ensures r.Some? ==> forall j :: 0 <= j < r.value ==> RunningAt(cs, j) < slice
    ensures r.None? ==> forall j :: 0 <= j < |cs| ==> RunningAt(cs, j) < slice
  {
    SelectedFrom(cs, slice, 0)
  }

  function SelectedFrom(cs: seq<Chromosome>, slice: real, i: nat): (r: Option<nat>)
    requires i <= |cs| && forall j :: 0 <= j < i ==> RunningAt(cs, j) < slice
    ensures r.Some? ==> i <= r.value < |cs| && RunningAt(cs, r.value) >= slice
    ensures r.Some? ==> forall j :: 0 <= j < r.value ==> RunningAt(cs, j) < slice
    ensures r.None? ==> forall j :: 0 <= j < |cs| ==> RunningAt(cs, j) < slice
    decreases |cs| - i
  {
    if i == |cs| then None
    else if RunningAt(cs, i) >= slice then Some(i)
    else SelectedFrom(cs, slice, i + 1)
  }

  /** With non-negative fitnesses the running totals never exceed the
      total. */
  lemma {:induction false} TotalPrefix(cs: seq<Chromosome>, j: nat)
    requires NonNegative(cs) && j <= |cs|
    ensures Total(cs[..j]) <= Total(cs)
    decreases |cs|
  {
    if j < |cs| {
      var init := cs[..|cs| - 1];
      assert cs[..j] == init[..j];
      TotalPrefix(init, j);
    } else {
      assert cs[..j] == cs;
    }
  }

  /** Nothing is selected exactly when the population is empty or its total
      falls short of the slice. */
  lemma SelectedNoneIff(cs: seq<Chromosome>, slice: real)
    requires NonNegative(cs)
    ensures Selected(cs, slice).None? <==> cs == [] || Total(cs) < slice
  {
    forall j | 0 <= j < |cs| ensures RunningAt(cs, j) <= Total(cs) {
      TotalPrefix(cs, j + 1);
    }
    if cs != [] {
      assert cs[..|cs| - 1 + 1] == cs;
      assert RunningAt(cs, |cs| - 1) == Total(cs);
    }
  }

  /** `Slice` in `Roulette`: the drawn fraction of the total fitness. */
  function SliceOf(r: real, total: real): real
  {
    r * total
  }

  lemma SliceBelow(r: real, total: real)
    requires IsUnit(r) && total >= 0.0
    ensures 0.0 <= SliceOf(r, total) <= total
  {
    FractionBelow(r, total);
  }

  /** A slice no larger than the total of a non-empty population with
      non-negative fitnesses always selects a chromosome. */
  lemma SliceLands(cs: seq<Chromosome>, slice: real)
    requires cs != [] && NonNegative(cs) && slice <= Total(cs)
    ensures Selected(cs, slice).Some?
  {
    SelectedNoneIff(cs, slice);
  }

  lemma {:induction false} TotalNonNegative(cs: seq<Chromosome>)
    requires NonNegative(cs)
    ensures Total(cs) >= 0.0
  {
    if cs != [] {
      TotalNonNegative(cs[..|cs| - 1]);
    }
  }

  /** The smallest fitness in a non-empty population (`sorted(...)[0]`). */
  function MinFitness(cs: seq<Chromosome>): (m: real)
    requires cs != []
    ensures exists i :: 0 <= i < |cs| && cs[i].fitness == m
    ensures forall i :: 0 <= i < |cs| ==> m <= cs[i].fitness
  {
    if |cs| == 1 then cs[0].fitness
    else
      var m := MinFitness(cs[1..]);
      assert forall i :: 1 <= i < |cs| ==> cs[1..][i - 1] == cs[i];
      if cs[0].fitness <= m then cs[0].fitness else m
  }

  /** Why the generation loop ends without a find after `passes` passes:
      the tenth pass ran, or the best fitness of the last population scored
      was within the threshold. */
  predicate Settled(scored: seq<Chromosome>, passes: nat, minfit: real)
  {
    passes == MaxGenerations || (scored != [] && MinFitness(scored) <= minfit)
  }

  /** A chromosome `getBeat` accepts: under the threshold and not in the
      history. */
  predicate Acceptable(c: Chromosome, minfit: real, items: seq<Elem>)
  {
    c.fitness < minfit && !InHistory(items, c.beat)
  }

  /** A beat an evaluation pass accepts once it has scored it: measurable,
      under the threshold against `target`, and not in the history. */
  predicate AcceptableBeat(b: Elem, target: FeatureVector, sqrt: nat -> real, minfit: real, items: seq<Elem>)
  {
    Measurable(b) && CheckFitness(target, sqrt, b) < minfit && !InHistory(items, b)
  }

  /** Position `k` holds the first beat of `cs`, in population order, that
      an evaluation pass accepts. */
  predicate FirstAcceptable(cs: seq<Chromosome>, k: nat, target: FeatureVector, sqrt: nat -> real, minfit: real,
                            items: seq<Elem>)
  {
    && k < |cs| && AcceptableBeat(cs[k].beat, target, sqrt, minfit, items)
    && forall j :: 0 <= j < k ==> !AcceptableBeat(cs[j].beat, target, sqrt, minfit, items)
  }

  predicate AllWellFormed(cs: seq<Chromosome>)
  {
    forall i :: 0 <= i < |cs| ==> WellFormedBeat(cs[i].beat)
  }

  // ---------------------------------------------------------------------
  // Breeding

  /** What breeding relies on: a non-empty population of well-formed
      beats whose non-negative fitnesses add up to `total`. */
  predicate Breedable(cs: seq<Chromosome>, total: real)
  {
    cs != [] && NonNegative(cs) && AllWellFormed(cs) && total == Total(cs)
  }

  /** The positions of the two parents the roulette spins of a round
      select. */
  function ParentsOf(cs: seq<Chromosome>, total: real, round: Round): (p: (nat, nat))
    requires Breedable(cs, total) && IsUnit(round.pick1) && IsUnit(round.pick2)
    ensures p.0 < |cs| && p.1 < |cs|
  {
    TotalNonNegative(cs);
    SliceBelow(round.pick1, total);
    SliceBelow(round.pick2, total);
    SliceLands(cs, SliceOf(round.pick1, total));
    SliceLands(cs, SliceOf(round.pick2, total));
    (Selected(cs, SliceOf(round.pick1, total)).value, Selected(cs, SliceOf(round.pick2, total)).value)
  }

  /** Two parents recombined, and each child then mutated. */
  function Recombined(mammy: Elem, daddy: Elem, round: Round, crRate: real, muRate: real): (o: (Elem, Elem))
    requires WellFormedBeat(mammy) && WellFormedBeat(daddy)
    ensures WellFormedBeat(o.0) && WellFormedBeat(o.1)
  {
    var c := CrossoverOf(mammy, daddy, crRate, round.cross);
    CrossoverWellFormed(mammy, daddy, crRate, round.cross);
    MutateWellFormed(c.0, muRate, round.mut1);
    MutateWellFormed(c.1, muRate, round.mut2);
    (Mutate(c.0, muRate, round.mut1), Mutate(c.1, muRate, round.mut2))
  }

  /** The two offspring one round of draws yields from the population. */
  function OffspringOf(cs: seq<Chromosome>, total: real, round: Round, crRate: real, muRate: real): (o: (Elem, Elem))
    requires Breedable(cs, total) && IsUnit(round.pick1) && IsUnit(round.pick2)
    ensures WellFormedBeat(o.0) && WellFormedBeat(o.1)
  {
    var p := ParentsOf(cs, total, round);
    Recombined(cs[p.0].beat, cs[p.1].beat, round, crRate, muRate)
  }

  /** An offspring joins the new generation, with fitness 9999, only when
      it has more than one child. */
  function Kept(m: Elem): seq<Chromosome>
  {
    if |m.children| > 1 then [Chromosome(m, Unevaluated)] else []
  }

  /** The generation a list of offspring pairs gives: the kept offspring
      of each pair, the first before the second, in list order. */
  function Brood(pairs: seq<(Elem, Elem)>): seq<Chromosome>
  {
    if pairs == [] then []
    else
      var last := pairs[|pairs| - 1];
      Brood(pairs[..|pairs| - 1]) + Kept(last.0) + Kept(last.1)
  }

  /** The offspring each round of draws yields, round by round. */
  function Offsprings(cs: seq<Chromosome>, total: real, rounds: seq<Round>, crRate: real, muRate: real): (ps: seq<(Elem, Elem)>)
    requires Breedable(cs, total) && DrawsValid(rounds)
    ensures |ps| == |rounds|
  {
    if rounds == [] then []
    else Offsprings(cs, total, rounds[..|rounds| - 1], crRate, muRate) + [OffspringOf(cs, total, rounds[|rounds| - 1], crRate, muRate)]
  }

  /** The pair at position `i` is what round `i` yields. */
  lemma {:induction false} OffspringsAt(cs: seq<Chromosome>, total: real, rounds: seq<Round>, crRate: real, muRate: real, i: nat)
    requires Breedable(cs, total) && DrawsValid(rounds) && i < |rounds|
    ensures Offsprings(cs, total, rounds, crRate, muRate)[i] == OffspringOf(cs, total, rounds[i], crRate, muRate)
  {
    var n := |rounds| - 1;
    if i < n {
      var init := rounds[..n];
      assert init[i] == rounds[i];
      OffspringsAt(cs, total, init, crRate, muRate, i);
    }
  }

  /** The generation `rounds` of draws breed from `cs`. */
  function NextGeneration(cs: seq<Chromosome>, total: real, rounds: seq<Round>, crRate: real, muRate: real): seq<Chromosome>
    requires Breedable(cs, total) && DrawsValid(rounds)
  {
    Brood(Offsprings(cs, total, rounds, crRate, muRate))
  }

  /** One more round of draws adds its kept offspring at the end. */
  lemma NextGenerationSnoc(cs: seq<Chromosome>, total: real, done: seq<Round>, r: Round, crRate: real, muRate: real,
                           prev: seq<Chromosome>, m1: Elem, m2: Elem, gen: seq<Chromosome>)
    requires Breedable(cs, total) && IsUnit(r.pick1) && IsUnit(r.pick2) && DrawsValid(done) && DrawsValid(done + [r])
    requires prev == NextGeneration(cs, total, done, crRate, muRate)
    requires (m1, m2) == OffspringOf(cs, total, r, crRate, muRate)
    requires gen == prev + Kept(m1) + Kept(m2)
    ensures gen == NextGeneration(cs, total, done + [r], crRate, muRate)
  {
    assert (done + [r])[..|done|] == done;
  }

  /** A member of a bred generation: unevaluated, with more than one
      child and a well-formed beat. */
  predicate Newborn(c: Chromosome)
  {
    c.fitness == Unevaluated && |c.beat.children| > 1 && WellFormedBeat(c.beat)
  }

  lemma {:induction false} BroodShape(pairs: seq<(Elem, Elem)>)
    requires forall i :: 0 <= i < |pairs| ==> WellFormedBeat(pairs[i].0) && WellFormedBeat(pairs[i].1)
    ensures forall c :: c in Brood(pairs) ==> Newborn(c)
  {
    if pairs != [] {
      var last := pairs[|pairs| - 1];
      BroodShape(pairs[..|pairs| - 1]);
      assert forall c :: c in Kept(last.0) + Kept(last.1) ==> Newborn(c);
    }
  }

  /** Every member of a bred generation is a newborn. */
  lemma NextGenerationShape(cs: seq<Chromosome>, total: real, rounds: seq<Round>, crRate: real, muRate: real)
    requires Breedable(cs, total) && DrawsValid(rounds)
    ensures forall c :: c in NextGeneration(cs, total, rounds, crRate, muRate) ==> Newborn(c)
  {
    var ps := Offsprings(cs, total, rounds, crRate, muRate);
    forall i | 0 <= i < |ps| ensures WellFormedBeat(ps[i].0) && WellFormedBeat(ps[i].1) {
      OffspringsAt(cs, total, rounds, crRate, muRate, i);
    }
    BroodShape(ps);
  }

  /** `c` is what one pair of offspring contributes: one of the two, with
      more than one child, at fitness 9999. */
  predicate KeptFrom(c: Chromosome, pair: (Elem, Elem))
  {
    c.fitness == Unevaluated && |c.beat.children| > 1 && (c.beat == pair.0 || c.beat == pair.1)
  }

  /** Every member of a brood comes from one of its pairs ... */
  lemma {:induction false} BroodFromPair(pairs: seq<(Elem, Elem)>, c: Chromosome)
    requires c in Brood(pairs)
    ensures exists i :: 0 <= i < |pairs| && KeptFrom(c, pairs[i])
  {
    if pairs != [] {
      var n := |pairs| - 1;
      var init := pairs[..n];
      if !KeptFrom(c, pairs[n]) {
        BroodFromPair(init, c);
        var i :| 0 <= i < n && KeptFrom(c, init[i]);
        assert init[i] == pairs[i];
      }
    }
  }

  /** ... and what each pair contributes is in it. */
  lemma {:induction false} PairInBrood(pairs: seq<(Elem, Elem)>, c: Chromosome, i: nat)
    requires i < |pairs| && KeptFrom(c, pairs[i])
    ensures c in Brood(pairs)
  {
    var n := |pairs| - 1;
    var init := pairs[..n];
    if i < n {
      assert init[i] == pairs[i];
      PairInBrood(init, c, i);
    }
  }

  /** The members of a bred generation are exactly the offspring of its
      rounds that have more than one child, each with fitness 9999. */
  lemma NextGenerationMembers(cs: seq<Chromosome>, total: real, rounds: seq<Round>, crRate: real, muRate: real, c: Chromosome)
    requires Breedable(cs, total) && DrawsValid(rounds)
    ensures c in NextGeneration(cs, total, rounds, crRate, muRate) <==>
      exists i :: 0 <= i < |rounds| && KeptFrom(c, OffspringOf(cs, total, rounds[i], crRate, muRate))
  {
    var ps := Offsprings(cs, total, rounds, crRate, muRate);
    if c in Brood(ps) {
      BroodFromPair(ps, c);
      var i :| 0 <= i < |ps| && KeptFrom(c, ps[i]);
      OffspringsAt(cs, total, rounds, crRate, muRate, i);
    }
    if i :| 0 <= i < |rounds| && KeptFrom(c, OffspringOf(cs, total, rounds[i], crRate, muRate)) {
      OffspringsAt(cs, total, rounds, crRate, muRate, i);
      PairInBrood(ps, c, i);
    }
  }

  /** What a generation bred by `getBeat` came from: the parents, each
      scored against `target`, and the rounds of draws. */
  predicate BredFrom(gen: seq<Chromosome>, parents: seq<Chromosome>, rounds: seq<Round>,
                     target: FeatureVector, sqrt: nat -> real, crRate: real, muRate: real)
  {
    && Breedable(parents, Total(parents)) && DrawsValid(rounds)
    && (forall j :: 0 <= j < |parents| ==>
          Measurable(parents[j].beat) && parents[j].fitness == CheckFitness(target, sqrt, parents[j].beat))
    && gen == NextGeneration(parents, Total(parents), rounds, crRate, muRate)
  }

  lemma DrawsValidFrom(draws: seq<Round>, k: nat)
    requires DrawsValid(draws) && k <= |draws|
    ensures DrawsValid(draws[k..])
  {
    assert forall i :: 0 <= i < |draws| - k ==> draws[k..][i] == draws[k + i];
  }

  lemma BredFromScored(gen: seq<Chromosome>, parents: seq<Chromosome>, total: real, rounds: seq<Round>,
                       target: FeatureVector, sqrt: nat -> real, crRate: real, muRate: real)
    requires Breedable(parents, total) && DrawsValid(rounds)
    requires forall j :: 0 <= j < |parents| ==>
      Measurable(parents[j].beat) && parents[j].fitness == CheckFitness(target, sqrt, parents[j].beat)
    requires gen == NextGeneration(parents, total, rounds, crRate, muRate)
    ensures BredFrom(gen, parents, rounds, target, sqrt, crRate, muRate)
  {
  }

  /** A generation bred with the `n` rounds that follow the first `lo` of
      `draws` was bred with the slice of `draws` from `lo` to `hi`. */
  lemma BredFromDraws(gen: seq<Chromosome>, parents: seq<Chromosome>, draws: seq<Round>, lo: nat, hi: nat, n: nat,
                      target: FeatureVector, sqrt: nat -> real, crRate: real, muRate: real)
    requires hi == lo + n <= |draws| && BredFrom(gen, parents, draws[lo..][..n], target, sqrt, crRate, muRate)
    ensures BredFrom(gen, parents, draws[lo..hi], target, sqrt, crRate, muRate)
  {
    SliceOfSuffix(draws, lo, hi, n);
  }

  /** The state of the breeding loop after `used` rounds of `draws`: the
      generation so far is what those rounds breed, and before the last
      of them it was still smaller than the population. */
  predicate Breeding(cs: seq<Chromosome>, total: real, draws: seq<Round>, used: nat, gen: seq<Chromosome>,
                     crRate: real, muRate: real)
  {
    && Breedable(cs, total) && used <= |draws| && DrawsValid(draws[..used]) && |gen| <= |cs| + 1
    && gen == NextGeneration(cs, total, draws[..used], crRate, muRate)
    && (used > 0 ==>
          DrawsValid(draws[..used - 1]) && |NextGeneration(cs, total, draws[..used - 1], crRate, muRate)| < |cs|)
  }

  /** One turn of the breeding loop keeps its state. */
  lemma BreedStep(cs: seq<Chromosome>, total: real, draws: seq<Round>, used0: nat, gen0: seq<Chromosome>,
                  m1: Elem, m2: Elem, used: nat, gen: seq<Chromosome>, crRate: real, muRate: real)
    requires Breeding(cs, total, draws, used0, gen0, crRate, muRate) && DrawsValid(draws)
    requires used0 < |draws| && |gen0| < |cs| && used == used0 + 1
    requires (m1, m2) == OffspringOf(cs, total, draws[used0], crRate, muRate)
    requires gen == gen0 + Kept(m1) + Kept(m2)
    ensures Breeding(cs, total, draws, used, gen, crRate, muRate)
  {
    TakeSnoc(draws, used0);
    NextGenerationSnoc(cs, total, draws[..used0], draws[used0], crRate, muRate, gen0, m1, m2, gen);
  }

  // ---------------------------------------------------------------------
  // The engine

  /** The `genetic` object: the beat lists it draws from, the two rates,
      the history of returned beats and the current population. */
  class Engine {
    const pool: seq<seq<Elem>>
    const crRate: real
    const muRate: real
    const queue: Queue
    var chromosomes: seq<Chromosome>

    constructor (pool: seq<seq<Elem>>, crossoverRate: real, mutateRate: real)
      ensures this.pool == pool && crRate == crossoverRate && muRate == mutateRate
      ensures fresh(queue) && queue.Valid() && queue.size == HistorySize && queue.items == []
      ensures chromosomes == []
    {
      this.pool := pool;
      crRate := crossoverRate;
      muRate := mutateRate;
      queue := new Queue(HistorySize);
      chromosomes := [];
    }

    /** `Roulette` with `random.random()` given as `r`. */
    method Roulette(total: real, r: real) returns (beat: Option<Elem>)
      ensures var k := Selected(chromosomes, SliceOf(r, total));
        && (k.None? ==> beat.None?)
        && (k.Some? ==> beat == Some(chromosomes[k.value].beat))
    {
      var slice := SliceOf(r, total);
      var fitnessSoFar := 0.0;
      var i := 0;
      while i < |chromosomes|
        invariant 0 <= i <= |chromosomes|
        invariant fitnessSoFar == Total(chromosomes[..i])
        invariant forall j :: 0 <= j < i ==> RunningAt(chromosomes, j) < slice
      {
        assert chromosomes[..i + 1][..i] == chromosomes[..i];
        fitnessSoFar := fitnessSoFar + chromosomes[i].fitness;
        assert fitnessSoFar == RunningAt(chromosomes, i);
        if fitnessSoFar >= slice {
          return Some(chromosomes[i].beat);
        }
        i := i + 1;
      }
      return None;
    }

    /** One evaluation pass of `getBeat`: computes each chromosome's fitness
        in turn, adding it to the total, and stops at the first acceptable
        one, which it pushes onto the history; `found` is its position. */
    method Evaluate(target: FeatureVector, minfit: real, sqrt: nat -> real) returns (found: Option<nat>, total: real)
      requires queue.Valid() && queue.size > 0
      requires forall i :: 0 <= i < |chromosomes| ==> Measurable(chromosomes[i].beat)
      modifies this, queue
      ensures queue.Valid()
      ensures |chromosomes| == |old(chromosomes)|
      ensures forall j :: 0 <= j < |chromosomes| ==> chromosomes[j].beat == old(chromosomes)[j].beat
      ensures found.None? ==>
        && (forall j :: 0 <= j < |chromosomes| ==> chromosomes[j].fitness == CheckFitness(target, sqrt, chromosomes[j].beat))
        && (forall j :: 0 <= j < |chromosomes| ==> !Acceptable(chromosomes[j], minfit, old(queue.items)))
        && total == Total(chromosomes)
        && queue.items == old(queue.items)
      ensures found.Some? ==>
        var k := found.value;
        && k < |chromosomes|
        && (forall j :: 0 <= j <= k ==> chromosomes[j].fitness == CheckFitness(target, sqrt, chromosomes[j].beat))
        && (forall j :: k < j < |chromosomes| ==> chromosomes[j] == old(chromosomes)[j])
        && (forall j :: 0 <= j < k ==> !Acceptable(chromosomes[j], minfit, old(queue.items)))
        && Acceptable(chromosomes[k], minfit, old(queue.items))
        && queue.items == Pushed(old(queue.items), queue.size, chromosomes[k].beat)
    {
      var cs := chromosomes;
      total := 0.0;
      var i := 0;
      while i < |cs|
        invariant 0 <= i <= |cs|
        invariant |cs| == |old(chromosomes)|
        invariant forall j :: 0 <= j < |cs| ==> cs[j].beat == old(chromosomes)[j].beat
        invariant forall j :: 0 <= j < i ==> cs[j].fitness == CheckFitness(target, sqrt, cs[j].beat)
        invariant forall j :: i <= j < |cs| ==> cs[j] == old(chromosomes)[j]
        invariant forall j :: 0 <= j < i ==> !Acceptable(cs[j], minfit, old(queue.items))
        invariant total == Total(cs[..i])
        invariant queue.items == old(queue.items) && queue.Valid()
      {
        var fitness := CheckFitness(target, sqrt, cs[i].beat);
        cs := cs[i := cs[i].(fitness := fitness)];
        assert cs[..i + 1][..i] == cs[..i];
        total := total + fitness;
        if fitness < minfit {
          var seen := queue.Contains(cs[i].beat);
          if !seen {
            queue.Push(cs[i].beat);
            chromosomes := cs;
            return Some(i), total;
          }
        }
        i := i + 1;
      }
      assert cs[..i] == cs;
      chromosomes := cs;
      return None, total;
    }

    /** One turn of the breeding loop: two parents drawn by roulette,
        recombined, and each offspring mutated. */
    method Offspring(total: real, round: Round) returns (m1: Elem, m2: Elem)
      requires Breedable(chromosomes, total) && IsUnit(round.pick1) && IsUnit(round.pick2)
      ensures WellFormedBeat(m1) && WellFormedBeat(m2) && (m1, m2) == OffspringOf(chromosomes, total, round, crRate, muRate)
    {
      TotalNonNegative(chromosomes);
      SliceBelow(round.pick1, total);
      SliceBelow(round.pick2, total);
      SliceLands(chromosomes, SliceOf(round.pick1, total));
      SliceLands(chromosomes, SliceOf(round.pick2, total));
      var offspring1 := Roulette(total, round.pick1);
      var offspring2 := Roulette(total, round.pick2);
      var o1, o2 := Crossover(offspring1.value, offspring2.value, crRate, round.cross);
      CrossoverWellFormed(offspring1.value, offspring2.value, crRate, round.cross);
      MutateWellFormed(o1, muRate, round.mut1);
      MutateWellFormed(o2, muRate, round.mut2);
      m1 := Mutate(o1, muRate, round.mut1);
      m2 := Mutate(o2, muRate, round.mut2);
    }

    /** One turn of the breeding loop: the offspring of round `used` of
        `draws` that have more than one child join the new generation. */
    method Grow(total: real, draws: seq<Round>, used: nat, gen: seq<Chromosome>) returns (next: seq<Chromosome>)
      requires Breeding(chromosomes, total, draws, used, gen, crRate, muRate) && DrawsValid(draws)
      requires used < |draws| && |gen| < |chromosomes|
      ensures Breeding(chromosomes, total, draws, used + 1, next, crRate, muRate)
    {
      var m1, m2 := Offspring(total, draws[used]);
      next := gen;
      if |m1.children| > 1 {
        next := next + [Chromosome(m1, Unevaluated)];
      }
      if |m2.children| > 1 {
        next := next + [Chromosome(m2, Unevaluated)];
      }
      BreedStep(chromosomes, total, draws, used, gen, m1, m2, used + 1, next, crRate, muRate);
    }

    /** The breeding loop of `getBeat`: draws two parents by roulette,
        recombines and mutates them, and keeps each offspring with more
        than one child, until the new generation is as large as the old.
        `used` counts the rounds of draws it consumed; `complete` is false
        when they ran out first. */
    method Breed(total: real, draws: seq<Round>) returns (newGen: seq<Chromosome>, used: nat, complete: bool)
      requires Breedable(chromosomes, total) && DrawsValid(draws)
      ensures used <= |draws| && DrawsValid(draws[..used])
      ensures newGen == NextGeneration(chromosomes, total, draws[..used], crRate, muRate)
      ensures complete ==> |chromosomes| <= |newGen| <= |chromosomes| + 1
      ensures complete ==> used > 0 && |NextGeneration(chromosomes, total, draws[..used - 1], crRate, muRate)| < |chromosomes|
      ensures !complete ==> used == |draws| && |newGen| < |chromosomes|
      ensures forall c :: c in newGen ==> Newborn(c)
    {
      newGen := [];
      used := 0;
      while |newGen| < |chromosomes| && used < |draws|
        invariant Breeding(chromosomes, total, draws, used, newGen, crRate, muRate)
        decreases |draws| - used
      {
        newGen := Grow(total, draws, used, newGen);
        used := used + 1;
      }
      complete := |newGen| >= |chromosomes|;
      NextGenerationShape(chromosomes, total, draws[..used], crRate, muRate);
    }

    /** One turn of `getBeat`'s outer loop: an evaluation pass and, when
        it finds no acceptable beat, the best fitness of the pass and the
        next generation bred from the scored population. `used` counts the
        rounds of draws breeding consumed; `complete` is false when they ran
        out first, and the population is then the scored one. */
    method Generation(target: FeatureVector, minfit: real, sqrt: nat -> real, draws: seq<Round>)
      returns (found: Option<Elem>, fitness: real, used: nat, complete: bool, ghost parents: seq<Chromosome>, ghost pos: nat)
      requires queue.Valid() && queue.size > 0
      requires chromosomes != [] && AllWellFormed(chromosomes)
      requires forall n :: sqrt(n) >= 0.0
      requires DrawsValid(draws)
      modifies this, queue
      ensures queue.Valid()
      ensures found.Some? ==>
        && Measurable(found.value)
        && CheckFitness(target, sqrt, found.value) < minfit
        && !InHistory(old(queue.items), found.value)
        && queue.items == Pushed(old(queue.items), queue.size, found.value)
      ensures found.Some? ==>
        FirstAcceptable(old(chromosomes), pos, target, sqrt, minfit, old(queue.items)) && found.value == old(chromosomes)[pos].beat
      ensures found.None? ==> queue.items == old(queue.items)
      ensures chromosomes != [] && AllWellFormed(chromosomes)
      ensures found.None? ==> used <= |draws|
      ensures found.None? ==> parents != [] && fitness == MinFitness(parents)
      ensures found.None? && complete ==> BredFrom(chromosomes, parents, draws[..used], target, sqrt, crRate, muRate)
    {
      forall i | 0 <= i < |chromosomes| ensures Measurable(chromosomes[i].beat) {
        WellFormedMeasurable(chromosomes[i].beat);
      }
      ghost var before := chromosomes;
      var k, totalFitness := Evaluate(target, minfit, sqrt);
      if k.Some? {
        pos := k.value;
        WellFormedMeasurable(chromosomes[pos].beat);
        forall j | 0 <= j < pos ensures !AcceptableBeat(before[j].beat, target, sqrt, minfit, old(queue.items)) {
          assert !Acceptable(chromosomes[j], minfit, old(queue.items));
        }
        return Some(chromosomes[k.value].beat), 0.0, 0, false, [], pos;
      }
      pos := 0;
      fitness, used, complete, parents := Reproduce(target, sqrt, totalFitness, draws);
      found := None;
    }

    /** The second half of a turn of `getBeat`'s loop, once the population
        is scored: the best fitness of the pass, and the next generation,
        which replaces the population when breeding completes. */
    method Reproduce(target: FeatureVector, sqrt: nat -> real, total: real, draws: seq<Round>)
      returns (fitness: real, used: nat, complete: bool, ghost parents: seq<Chromosome>)
      requires Breedable(chromosomes, total) && DrawsValid(draws)
      requires forall j :: 0 <= j < |chromosomes| ==>
        Measurable(chromosomes[j].beat) && chromosomes[j].fitness == CheckFitness(target, sqrt, chromosomes[j].beat)
      modifies this
      ensures parents == old(chromosomes) && fitness == MinFitness(parents) && used <= |draws|
      ensures chromosomes != [] && AllWellFormed(chromosomes)
      ensures complete ==> BredFrom(chromosomes, parents, draws[..used], target, sqrt, crRate, muRate)
      ensures !complete ==> chromosomes == parents
    {
      fitness := MinFitness(chromosomes);
      parents := chromosomes;
      var newGen;
      newGen, used, complete := Breed(total, draws);
      if complete {
        BredFromScored(newGen, parents, total, draws[..used], target, sqrt, crRate, muRate);
        forall i | 0 <= i < |newGen| ensures WellFormedBeat(newGen[i].beat) {
          assert newGen[i] in newGen;
        }
        chromosomes := newGen;
      }
    }

    /** The loop of `getBeat`: at most ten generations, each an evaluation
        pass followed by breeding, until a pass finds an acceptable beat or
        the best fitness of a pass is within the threshold; the closest
        beat is then the first of the last generation bred. `parents`,
        `lo` and `hi` say what that generation was bred from. */
    method Evolve(target: FeatureVector, minfit: real, sqrt: nat -> real, draws: seq<Round>)
      returns (outcome: Outcome, passes: nat, ghost parents: seq<Chromosome>, ghost lo: nat, ghost hi: nat,
               ghost pop: seq<Chromosome>, ghost pos: nat)
      requires queue.Valid() && queue.size > 0
      requires chromosomes != [] && AllWellFormed(chromosomes)
      requires forall n :: sqrt(n) >= 0.0
      requires DrawsValid(draws)
      modifies this, queue
      ensures queue.Valid()
      ensures passes <= MaxGenerations
      ensures passes == 0 <==> Unevaluated <= minfit
      ensures passes == 0 ==> chromosomes == old(chromosomes) && outcome == Closest(old(chromosomes)[0].beat)
      ensures chromosomes != [] && AllWellFormed(chromosomes)
      ensures outcome.Found? ==>
        && Measurable(outcome.beat)
        && CheckFitness(target, sqrt, outcome.beat) < minfit
        && !InHistory(old(queue.items), outcome.beat)
        && queue.items == Pushed(old(queue.items), queue.size, outcome.beat)
      ensures outcome.Found? ==>
        && FirstAcceptable(pop, pos, target, sqrt, minfit, old(queue.items)) && outcome.beat == pop[pos].beat
        && (passes == 1 ==> pop == old(chromosomes))
        && (passes > 1 ==> lo <= hi <= |draws| && BredFrom(pop, parents, draws[lo..hi], target, sqrt, crRate, muRate))
      ensures outcome.Closest? ==> outcome.beat == chromosomes[0].beat
      ensures outcome.Closest? && passes > 0 ==>
        && lo <= hi <= |draws| && BredFrom(chromosomes, parents, draws[lo..hi], target, sqrt, crRate, muRate)
        && Settled(parents, passes, minfit)
      ensures !outcome.Found? ==> queue.items == old(queue.items)
    {
      var generations := 1;
      var fitness := Unevaluated;
      passes := 0;
      var consumed: nat := 0;
      parents, lo, hi, pop, pos := [], 0, 0, [], 0;
      while fitness > minfit
        invariant 1 <= generations <= MaxGenerations && passes == generations - 1
        invariant passes == 0 ==> fitness == Unevaluated && chromosomes == old(chromosomes)
        invariant passes > 0 ==> minfit < Unevaluated && parents != [] && fitness == MinFitness(parents)
        invariant chromosomes != [] && AllWellFormed(chromosomes)
        invariant queue.items == old(queue.items) && queue.Valid()
        invariant lo <= consumed <= |draws|
        invariant passes > 0 ==> BredFrom(chromosomes, parents, draws[lo..consumed], target, sqrt, crRate, muRate)
        decreases MaxGenerations - generations
      {
        DrawsValidFrom(draws, consumed);
        ghost var current := chromosomes;
        var found, best, used, complete, scored, at := Generation(target, minfit, sqrt, draws[consumed..]);
        passes := passes + 1;
        if found.Some? {
          return Found(found.value), passes, parents, lo, consumed, current, at;
        }
        if !complete {
          return OutOfDraws, passes, parents, lo, hi, pop, pos;
        }
        fitness, parents := best, scored;
        lo, consumed := consumed, consumed + used;
        BredFromDraws(chromosomes, parents, draws, lo, consumed, used, target, sqrt, crRate, muRate);
        generations := generations + 1;
        if generations > MaxGenerations {
          break;
        }
      }
      hi := consumed;
      return Closest(chromosomes[0].beat), passes, parents, lo, hi, pop, pos;
    }

    /** `getBeat`: seeds the population from the beat lists and evolves it
        towards the features of `testbeat`. */
    method GetBeat(testbeat: Elem, minfit: real, sqrt: nat -> real, draws: seq<Round>) returns (outcome: Outcome, passes: nat)
      requires queue.Valid() && queue.size > 0
      requires Measurable(testbeat)
      requires forall i, b :: 0 <= i < |pool| && b in pool[i] ==> WellFormedBeat(b)
      requires InitChromo(pool) != []
      requires forall n :: sqrt(n) >= 0.0
      requires DrawsValid(draws)
      modifies this, queue
      ensures queue.Valid()
      ensures passes <= MaxGenerations
      ensures passes == 0 <==> Unevaluated <= minfit
      ensures passes == 0 ==> chromosomes == InitChromo(pool) && outcome == Closest(InitChromo(pool)[0].beat)
      ensures AllWellFormed(chromosomes)
      ensures outcome.Found? ==>
        && Measurable(outcome.beat)
        && CheckFitness(Describe(testbeat), sqrt, outcome.beat) < minfit
        && !InHistory(old(queue.items), outcome.beat)
        && queue.items == Pushed(old(queue.items), queue.size, outcome.beat)
      ensures outcome.Found? ==>
        exists pop: seq<Chromosome>, pos: nat ::
          && FirstAcceptable(pop, pos, Describe(testbeat), sqrt, minfit, old(queue.items))
          && outcome.beat == pop[pos].beat
          && (passes == 1 ==> pop == InitChromo(pool))
          && (passes > 1 ==>
                exists parents: seq<Chromosome>, lo: nat, hi: nat ::
                  lo <= hi <= |draws| && BredFrom(pop, parents, draws[lo..hi], Describe(testbeat), sqrt, crRate, muRate))
      ensures outcome.Closest? ==> chromosomes != [] && outcome.beat == chromosomes[0].beat
      ensures outcome.Closest? && passes > 0 ==>
        exists parents: seq<Chromosome>, lo: nat, hi: nat ::
          && lo <= hi <= |draws| && BredFrom(chromosomes, parents, draws[lo..hi], Describe(testbeat), sqrt, crRate, muRate)
          && Settled(parents, passes, minfit)
      ensures !outcome.Found? ==> queue.items == old(queue.items)
    {
      chromosomes := InitChromo(pool);
      forall i | 0 <= i < |chromosomes| ensures WellFormedBeat(chromosomes[i].beat) {
        InitChromoMembers(pool, chromosomes[i]);
      }
      var beatdetails := Describe(testbeat);
      ghost var parents, lo, hi, pop, pos;
      outcome, passes, parents, lo, hi, pop, pos := Evolve(beatdetails, minfit, sqrt, draws);
    }
  }
}
