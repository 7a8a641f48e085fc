/**
 * The genetic algorithm (`GA`): tournament selection, ordered crossover,
 * swap mutation and the step from one generation to the next, with elitism.
 *
 * Every random draw is a parameter. A tournament draws `tournamentSize`
 * slots of the population (`ids`); a crossover draws two cut points; a
 * mutation draws one roll per position and a partner position for each
 * roll that fires. `Breeding` bundles the draws that make one child. The
 * first half of the module states a generation step on values; the methods
 * of `GA` are proved to compute it.
 */
module Genetic {
  import opened Slots
  import opened Cities
  import opened Tours
  import opened Populations
  import opened OrderedCrossover
  import opened Mutation

  // ---------------------------------------------------------------------
  // A generation step, on values.

  /**
   * The slot a tournament over the sampled slots `ids` picks: the sample the
   * fittest-scan over the sampled fitness values ends on.
   */
  function Tournament(scores: seq<real>, ids: seq<nat>): (w: nat)
    requires |ids| > 0 && forall k :: 0 <= k < |ids| ==> ids[k] < |scores|
    ensures w < |scores|
  {
    ids[LastArgMax(Permute(scores, ids))]
  }

  /**
   * The tournament picks one of the sampled slots, at least as fit as every
   * sample, and strictly fitter than every sample drawn after it.
   */
  lemma TournamentWinner(scores: seq<real>, ids: seq<nat>)
    requires |ids| > 0 && forall k :: 0 <= k < |ids| ==> ids[k] < |scores|
    ensures forall k :: 0 <= k < |ids| ==> scores[ids[k]] <= scores[Tournament(scores, ids)]
    ensures exists k :: 0 <= k < |ids| && ids[k] == Tournament(scores, ids) &&
                        forall j :: k < j < |ids| ==> scores[ids[j]] < scores[Tournament(scores, ids)]
  {
    var sampled := Permute(scores, ids);
    var k := LastArgMax(sampled);
    LastArgMaxIsLastMax(sampled);
    assert forall j :: 0 <= j < |ids| ==> sampled[j] == scores[ids[j]];
    assert ids[k] == Tournament(scores, ids);
  }

  /**
   * The fittest of a sample, taken the way a population's scan takes it, is
   * the population entry in the slot the tournament picks.
   */
  lemma TournamentPick<X>(xs: seq<X>, scores: seq<real>, ids: seq<nat>)
    requires |xs| == |scores| && |ids| > 0 && forall k :: 0 <= k < |ids| ==> ids[k] < |scores|
    ensures Permute(xs, ids)[LastArgMax(Permute(scores, ids))] == xs[Tournament(scores, ids)]
  {
  }

  /** The draws that make one child: two tournaments, two cut points, and the mutation's draws. */
  datatype Breeding = Breeding(
    first: seq<nat>, second: seq<nat>,
    startPos: nat, endPos: nat,
    rolls: seq<real>, picks: seq<nat>)

  /**
   * `b` fits a population of `popSize` tours of `n` slots each: each
   * tournament samples `tournamentSize` slots of the population, and the
   * mutation has one roll and one partner position per slot.
   */
  predicate Drawn(b: Breeding, tournamentSize: nat, popSize: nat, n: nat) {
    |b.first| == tournamentSize && |b.second| == tournamentSize &&
    (forall k :: 0 <= k < tournamentSize ==> b.first[k] < popSize && b.second[k] < popSize) &&
    Draws(b.rolls, b.picks, n)
  }

  /** Every row has `n` slots. */
  predicate Uniform(rows: seq<seq<Option<City>>>, n: nat) {
    forall i :: 0 <= i < |rows| ==> |rows[i]| == n
  }

  /**
   * The crossover that the draws `b` make from a population whose tours have
   * the slot rows `rows` and fitness `scores`: the winner of the first
   * tournament gives the chosen positions, the winner of the second the rest.
   */
  function Bred(rows: seq<seq<Option<City>>>, scores: seq<real>, b: Breeding, tournamentSize: nat, n: nat): (child: seq<Option<City>>)
    requires |rows| == |scores| && Uniform(rows, n) && tournamentSize > 0
    requires Drawn(b, tournamentSize, |rows|, n)
    ensures |child| == n
  {
    var parent1 := rows[Tournament(scores, b.first)];
    var parent2 := rows[Tournament(scores, b.second)];
    Cross(parent1, parent2, b.startPos, b.endPos)
  }

  /** The crossovers that the draws in `plan` make, one per entry. */
  function BredRows(rows: seq<seq<Option<City>>>, scores: seq<real>, plan: seq<Breeding>, tournamentSize: nat, n: nat)
    : (r: seq<seq<Option<City>>>)
    requires |rows| == |scores| && Uniform(rows, n) && tournamentSize > 0
    requires forall i :: 0 <= i < |plan| ==> Drawn(plan[i], tournamentSize, |rows|, n)
    ensures |r| == |plan|
  {
    seq(|plan|, i requires 0 <= i < |plan| => Bred(rows, scores, plan[i], tournamentSize, n))
  }

  /** The child that the draws `b` make: the crossover of the two tournament winners, mutated. */
  function Offspring(rows: seq<seq<Option<City>>>, scores: seq<real>, b: Breeding, rate: real, tournamentSize: nat, n: nat): seq<Option<City>>
    requires |rows| == |scores| && Uniform(rows, n) && tournamentSize > 0
    requires Drawn(b, tournamentSize, |rows|, n)
  {
    Mutated(Bred(rows, scores, b, tournamentSize, n), rate, b.rolls, b.picks, n)
  }

  /** Each row of `rows` mutated with the matching draws. */
  function Mutations(rows: seq<seq<Option<City>>>, draws: seq<Breeding>, rate: real): (r: seq<seq<Option<City>>>)
    requires |draws| == |rows| && forall j :: 0 <= j < |rows| ==> Draws(draws[j].rolls, draws[j].picks, |rows[j]|)
    ensures |r| == |rows|
  {
    seq(|rows|, j requires 0 <= j < |rows| => Mutated(rows[j], rate, draws[j].rolls, draws[j].picks, |rows[j]|))
  }

  /**
   * The slot rows of the next generation: with elitism, slot 0 holds the
   * fittest tour of the current one; every other slot holds the offspring
   * its own draws make.
   */
  function NextGeneration(rows: seq<seq<Option<City>>>, scores: seq<real>, plan: seq<Breeding>,
                          elitism: bool, rate: real, tournamentSize: nat, n: nat): (next: seq<seq<Option<City>>>)
    requires |rows| == |scores| == |plan| && Uniform(rows, n) && tournamentSize > 0
    requires elitism ==> |rows| > 0
    requires forall i :: 0 <= i < |plan| ==> Drawn(plan[i], tournamentSize, |rows|, n)
    ensures |next| == |rows|
  {
    seq(|rows|, i requires 0 <= i < |rows| =>
      if elitism && i == 0 then rows[LastArgMax(scores)]
      else Offspring(rows, scores, plan[i], rate, tournamentSize, n))
  }

  /** Crossovers `bred` of the draws from `from` on, each mutated with its own draws, are those draws' offspring. */
  lemma OffspringFrom(rows: seq<seq<Option<City>>>, scores: seq<real>, plan: seq<Breeding>, from: nat,
                      bred: seq<seq<Option<City>>>, kids: seq<seq<Option<City>>>, rate: real, tournamentSize: nat, n: nat)
    requires |rows| == |scores| && Uniform(rows, n) && tournamentSize > 0
    requires forall i :: 0 <= i < |plan| ==> Drawn(plan[i], tournamentSize, |rows|, n)
    requires from + |bred| == |plan| && |kids| == |bred|
    requires forall j :: 0 <= j < |kids| ==>
      bred[j] == Bred(rows, scores, plan[from + j], tournamentSize, n) &&
      kids[j] == Mutated(bred[j], rate, plan[from + j].rolls, plan[from + j].picks, |bred[j]|)
    ensures forall j :: 0 <= j < |kids| ==> kids[j] == Offspring(rows, scores, plan[from + j], rate, tournamentSize, n)
  {
  }

  /** Slot `i` of the next generation holds the elite (slot 0, with elitism) or the offspring of `plan[i]`. */
  lemma {:induction false} NextGenerationAt(rows: seq<seq<Option<City>>>, scores: seq<real>, plan: seq<Breeding>,
                         elitism: bool, rate: real, tournamentSize: nat, n: nat, i: nat)
    requires |rows| == |scores| == |plan| && Uniform(rows, n) && tournamentSize > 0
    requires elitism ==> |rows| > 0
    requires forall i :: 0 <= i < |plan| ==> Drawn(plan[i], tournamentSize, |rows|, n)
    requires i < |rows|
    ensures elitism && i == 0 ==> NextGeneration(rows, scores, plan, elitism, rate, tournamentSize, n)[i] == rows[LastArgMax(scores)]
    ensures !(elitism && i == 0) ==>
      NextGeneration(rows, scores, plan, elitism, rate, tournamentSize, n)[i] == Offspring(rows, scores, plan[i], rate, tournamentSize, n)
  {
  }

  /** Breeding from complete tours of distinct cities yields a complete tour of them. */
  lemma OffspringIsTour(rows: seq<seq<Option<City>>>, scores: seq<real>, b: Breeding, rate: real,
                        tournamentSize: nat, cities: seq<City>)
    requires |rows| == |scores| && tournamentSize > 0 && Distinct(cities)
    requires forall i :: 0 <= i < |rows| ==> IsTourOf(rows[i], cities)
    requires Uniform(rows, |cities|) && Drawn(b, tournamentSize, |rows|, |cities|)
    ensures IsTourOf(Offspring(rows, scores, b, rate, tournamentSize, |cities|), cities)
  {
    var parent1 := rows[Tournament(scores, b.first)];
    var parent2 := rows[Tournament(scores, b.second)];
    CrossoverIsTour(parent1, parent2, cities, b.startPos, b.endPos);
    MutationKeepsTour(Bred(rows, scores, b, tournamentSize, |cities|), cities, rate, b.rolls, b.picks);
  }

  /**
   * When every tour of a population is a complete tour of the same distinct
   * cities, so is every tour of the next generation.
   */
  lemma NextGenerationKeepsTours(rows: seq<seq<Option<City>>>, scores: seq<real>, plan: seq<Breeding>,
                                 elitism: bool, rate: real, tournamentSize: nat, cities: seq<City>)
    requires |rows| == |scores| == |plan| && tournamentSize > 0 && Distinct(cities)
    requires elitism ==> |rows| > 0
    requires forall i :: 0 <= i < |rows| ==> IsTourOf(rows[i], cities)
    requires Uniform(rows, |cities|)
    requires forall i :: 0 <= i < |plan| ==> Drawn(plan[i], tournamentSize, |rows|, |cities|)
    ensures forall i :: 0 <= i < |rows| ==>
      IsTourOf(NextGeneration(rows, scores, plan, elitism, rate, tournamentSize, |cities|)[i], cities)
  {
    var next := NextGeneration(rows, scores, plan, elitism, rate, tournamentSize, |cities|);
    forall i | 0 <= i < |rows| ensures IsTourOf(next[i], cities) {
      if !(elitism && i == 0) {
        OffspringIsTour(rows, scores, plan[i], rate, tournamentSize, cities);
      }
    }
  }

  // ---------------------------------------------------------------------
  // The engine.

  class GA {
    const registry: Registry
    const mutationRate: real
    const tournamentSize: nat
    const elitism: bool

    /** An engine over the registry, with the default rate, tournament size and elitism. */
    constructor (registry: Registry)
      ensures this.registry == registry
      ensures mutationRate == 0.015 && tournamentSize == 5 && elitism
    {
      this.registry := registry;
      mutationRate := 0.015;
      tournamentSize := 5;
      elitism := true;
    }

    /**
     * Ordered crossover: a new tour that takes `parent1`'s cities at the
     * positions the cut points choose, then receives every city of `parent2`
     * it lacks, in `parent2`'s order, in its leftmost empty slot.
     */
    method Crossover(parent1: Tour, parent2: Tour, startPos: nat, endPos: nat) returns (child: Tour)
      requires |parent1.tour| == |registry.cities|
      ensures fresh(child) && child.registry == registry && child.Valid()
      ensures child.tour == Cross(parent1.tour, parent2.tour, startPos, endPos)
    {
      child := new Tour(registry);
      ghost var seg := Segment(parent1.tour, startPos, endPos);
      for i := 0 to child.TourSize()
        invariant child.registry == registry && child.Valid()
        invariant |child.tour| == |seg|
        invariant forall j :: 0 <= j < |seg| ==> child.tour[j] == if j < i then seg[j] else None
      {
        if startPos < endPos && i > startPos && i < endPos {
          child.SetCity(i, parent1.GetCity(i));
        } else if startPos > endPos {
          if !(i < startPos && i > endPos) {
            child.SetCity(i, parent1.GetCity(i));
          }
        }
      }
      assert child.tour == seg;
      for i := 0 to parent2.TourSize()
        invariant child.registry == registry && child.Valid()
        invariant child.tour == FillPrefix(seg, parent2.tour, i)
      {
        ghost var before := child.tour;
        if !child.ContainsCity(parent2.GetCity(i)) {
          for ii := 0 to child.TourSize()
            invariant child.registry == registry && child.Valid()
            invariant child.tour == before
            invariant forall j :: 0 <= j < ii ==> child.tour[j] != None
          {
            if child.GetCity(ii) == None {
              child.SetCity(ii, parent2.GetCity(i));
              assert child.tour == FillStep(before, parent2.tour[i]);
              break;
            }
          }
        }
        assert child.tour == FillStep(before, parent2.tour[i]);
      }
    }

    /**
     * Swap mutation in place: position by position, when the roll falls
     * below the mutation rate, the slot trades places with the drawn partner
     * slot. The caches are cleared exactly when some roll fires.
     */
    method Mutate(tour: Tour, rolls: seq<real>, picks: seq<nat>)
      requires tour.Valid() && Draws(rolls, picks, |tour.tour|)
      modifies tour
      ensures tour.Valid()
      ensures tour.tour == Mutated(old(tour.tour), mutationRate, rolls, picks, |old(tour.tour)|)
      ensures Fires(mutationRate, rolls, |rolls|) ==> tour.fitness == 0.0 && tour.distance == 0.0
      ensures !Fires(mutationRate, rolls, |rolls|) ==>
        tour.fitness == old(tour.fitness) && tour.distance == old(tour.distance)
    {
      ghost var start := tour.tour;
      for tourPos1 := 0 to tour.TourSize()
        invariant tour.Valid() && |tour.tour| == |start|
        invariant tour.tour == Mutated(start, mutationRate, rolls, picks, tourPos1)
        invariant Fires(mutationRate, rolls, tourPos1) ==> tour.fitness == 0.0 && tour.distance == 0.0
        invariant !Fires(mutationRate, rolls, tourPos1) ==>
          tour.fitness == old(tour.fitness) && tour.distance == old(tour.distance)
      {
        if rolls[tourPos1] < mutationRate {
          var tourPos2 := picks[tourPos1];
          var city1 := tour.GetCity(tourPos1);
          var city2 := tour.GetCity(tourPos2);
          tour.SetCity(tourPos2, city1);
          tour.SetCity(tourPos1, city2);
        }
        assert Fires(mutationRate, rolls, tourPos1 + 1) <==>
          Fires(mutationRate, rolls, tourPos1) || rolls[tourPos1] < mutationRate;
      }
    }

    /**
     * Tournament selection: the fittest of the population's tours in the
     * sampled slots `ids`, the last one among equals. Only caches change.
     */
    method TournamentSelection(pop: Population, ids: seq<nat>) returns (fittest: Tour)
      requires tournamentSize > 0 && |ids| == tournamentSize
      requires forall k :: 0 <= k < |ids| ==> ids[k] < |pop.tours|
      requires pop.Ready() && pop.AllScorable()
      modifies pop.Members()`distance, pop.Members()`fitness
      ensures pop.Ready() && pop.AllScorable()
      ensures pop.Rows() == old(pop.Rows()) && pop.Scores() == old(pop.Scores())
      ensures fittest == pop.tours[Tournament(pop.Scores(), ids)]
    {
      var tournament := Sample(pop, ids);
      TournamentPick(pop.tours, pop.Scores(), ids);
      label sampled:
      fittest := tournament.GetFittest();
      pop.CachesOnly@sampled(tournament.Members());
    }

    /** A new population of `tournamentSize` slots holding `pop`'s tours in the sampled slots `ids`. */
    method Sample(pop: Population, ids: seq<nat>) returns (tournament: Population)
      requires tournamentSize > 0 && |ids| == tournamentSize
      requires forall k :: 0 <= k < |ids| ==> ids[k] < |pop.tours|
      requires pop.Ready() && pop.AllScorable()
      ensures fresh(tournament) && tournament.tours == Permute(pop.tours, ids)
      ensures tournament.Members() <= pop.Members()
      ensures tournament.Ready() && tournament.AllScorable()
      ensures |tournament.tours| > 0 && tournament.Scores() == Permute(pop.Scores(), ids)
    {
      tournament := new Population(registry, tournamentSize, false, []);
      for i := 0 to tournamentSize
        modifies tournament
        invariant |tournament.tours| == tournamentSize
        invariant forall j :: 0 <= j < i ==> tournament.tours[j] == pop.tours[ids[j]]
        invariant forall j :: i <= j < tournamentSize ==> tournament.tours[j] == null
      {
        var randomId := ids[i];
        tournament.SaveTour(i, pop.GetTour(randomId));
      }
      assert tournament.tours == Permute(pop.tours, ids);
      assert tournament.Members() <= pop.Members();
    }

    /**
     * One generation step. The new population has as many slots as `pop`;
     * with elitism, slot 0 holds `pop`'s fittest tour itself, unmutated; every
     * other slot holds a new tour over the registry, the crossover of two tournament winners,
     * mutated. The tours of `pop` keep their slots; only their caches change.
     */
    method EvolvePopulation(pop: Population, plan: seq<Breeding>) returns (newPopulation: Population)
      requires tournamentSize > 0
      requires pop.Ready() && pop.AllScorable()
      requires elitism ==> |pop.tours| > 0
      requires Uniform(pop.Rows(), |registry.cities|)
      requires |plan| == |pop.tours|
      requires forall i :: 0 <= i < |plan| ==> Drawn(plan[i], tournamentSize, |pop.tours|, |registry.cities|)
      modifies pop.Members()`distance, pop.Members()`fitness
      ensures pop.Ready() && pop.AllScorable()
      ensures pop.Rows() == old(pop.Rows()) && pop.Scores() == old(pop.Scores())
      ensures fresh(newPopulation) && |newPopulation.tours| == |pop.tours|
      ensures newPopulation.Ready()
      ensures elitism ==> newPopulation.tours[0] == pop.tours[LastArgMax(old(pop.Scores()))]
      ensures forall i :: (if elitism then 1 else 0) <= i < |pop.tours| ==> newPopulation.tours[i] !in old(pop.Members())
      ensures forall i :: (if elitism then 1 else 0) <= i < |pop.tours| ==> newPopulation.tours[i].registry == registry
      ensures forall i :: (if elitism then 1 else 0) <= i < |pop.tours| ==> fresh(newPopulation.tours[i])
      ensures forall i, j :: (if elitism then 1 else 0) <= i < j < |pop.tours| ==> newPopulation.tours[i] != newPopulation.tours[j]
      ensures newPopulation.Rows() == NextGeneration(old(pop.Rows()), old(pop.Scores()), plan,
        elitism, mutationRate, tournamentSize, |registry.cities|)
    {
      ghost var rows, scores := pop.Rows(), pop.Scores();
      newPopulation := new Population(registry, pop.PopulationSize(), false, []);
      Populate(pop, plan, newPopulation, rows, scores);
    }

    /**
     * The body of a generation step once the empty population exists:
     * the elite (with elitism) into slot 0, then the bred and mutated
     * children into the other slots.
     */
    method Populate(pop: Population, plan: seq<Breeding>, newPopulation: Population,
                    ghost rows: seq<seq<Option<City>>>, ghost scores: seq<real>)
      requires tournamentSize > 0 && Steady(pop, rows, scores) && Uniform(rows, |registry.cities|)
      requires elitism ==> |rows| > 0
      requires pop != newPopulation && |plan| == |rows| == |newPopulation.tours|
      requires forall i :: 0 <= i < |plan| ==> Drawn(plan[i], tournamentSize, |rows|, |registry.cities|)
      modifies newPopulation, pop.Members()`distance, pop.Members()`fitness
      ensures Steady(pop, rows, scores)
      ensures |newPopulation.tours| == |rows| && newPopulation.Ready()
      ensures elitism ==> newPopulation.tours[0] == pop.tours[LastArgMax(scores)]
      ensures forall i :: (if elitism then 1 else 0) <= i < |rows| ==> newPopulation.tours[i] !in old(pop.Members())
      ensures forall i :: (if elitism then 1 else 0) <= i < |rows| ==> newPopulation.tours[i].registry == registry
      ensures forall i :: (if elitism then 1 else 0) <= i < |rows| ==> fresh(newPopulation.tours[i])
      ensures forall i, j :: (if elitism then 1 else 0) <= i < j < |rows| ==> newPopulation.tours[i] != newPopulation.tours[j]
      ensures newPopulation.Rows() == NextGeneration(rows, scores, plan, elitism, mutationRate, tournamentSize, |registry.cities|)
    {
      ghost var members := pop.Members();
      var elitismOffset := 0;
      ghost var head: seq<Tour> := [];
      if elitism {
        var elite := SaveElite(pop, newPopulation, rows, scores);
        elitismOffset := 1;
        head := [elite];
      }
      assert elitismOffset == (if elitism then 1 else 0);
      assert newPopulation.tours[..elitismOffset] == head;
      assert pop.Members() == members;
      ghost var made, kids := FillFrom(pop, plan, newPopulation, elitismOffset, rows, scores);
      Assembled(newPopulation, head, made);
      ghost var headRows := TourRows(head);
      assert |headRows| == elitismOffset;
      assert elitism ==> headRows[0] == rows[LastArgMax(scores)];
      GenerationAssembled(rows, scores, plan, elitism, mutationRate, tournamentSize, |registry.cities|,
        elitismOffset, headRows, kids);
    }

    /**
     * Elitism: puts the fittest tour of `pop` itself into slot 0 of
     * `newPopulation`. Only the caches of `pop`'s tours change.
     */
    method SaveElite(pop: Population, newPopulation: Population, ghost rows: seq<seq<Option<City>>>, ghost scores: seq<real>)
      returns (elite: Tour)
      requires Steady(pop, rows, scores) && |rows| > 0
      requires pop != newPopulation && |newPopulation.tours| == |rows|
      modifies newPopulation, pop.Members()`distance, pop.Members()`fitness
      ensures Steady(pop, rows, scores)
      ensures newPopulation.tours == old(newPopulation.tours)[0 := elite]
      ensures elite == pop.tours[LastArgMax(scores)] && elite.tour == rows[LastArgMax(scores)]
    {
      elite := pop.GetFittest();
      label saving:
      newPopulation.SaveTour(0, elite);
      StaysSteady@saving(pop, rows, scores);
    }

    /**
     * The slots of a population holding `head` followed by `made`, all of
     * them consistent, are filled, and their rows are those of `head`
     * followed by those of `made`.
     */
    lemma Assembled(p: Population, head: seq<Tour>, made: seq<Tour>)
      requires p.tours == head + made
      requires forall j :: 0 <= j < |head| ==> head[j].Valid()
      requires forall j :: 0 <= j < |made| ==> made[j].Valid()
      ensures p.Ready() && p.Rows() == TourRows(head) + TourRows(made)
    {
      forall t | t in p.Members() ensures t.Valid() {
        var i :| 0 <= i < |p.tours| && p.tours[i] == t;
        if i >= |head| {
          assert t == made[i - |head|];
        }
      }
    }

    /**
     * Breeds and then mutates the tours of slots `from` on: afterwards those
     * slots hold new, distinct tours, none of them a tour of `pop`, whose
     * rows are the offspring of `pop`'s rows and fitness under `plan`. Only
     * the caches of `pop`'s tours change.
     */
    method FillFrom(pop: Population, plan: seq<Breeding>, newPopulation: Population, from: nat,
                    ghost rows: seq<seq<Option<City>>>, ghost scores: seq<real>)
      returns (ghost made: seq<Tour>, ghost kids: seq<seq<Option<City>>>)
      requires tournamentSize > 0 && Steady(pop, rows, scores) && Uniform(rows, |registry.cities|)
      requires pop != newPopulation && |plan| == |rows| == |newPopulation.tours| && from <= |plan|
      requires forall i :: 0 <= i < |plan| ==> Drawn(plan[i], tournamentSize, |rows|, |registry.cities|)
      modifies newPopulation, pop.Members()`distance, pop.Members()`fitness
      ensures Steady(pop, rows, scores)
      ensures newPopulation.tours == old(newPopulation.tours)[..from] + made
      ensures fresh(set t | t in made) && Distinct(made)
      ensures Sound(made) && TourRows(made) == kids && from + |kids| == |plan|
      ensures forall i :: from <= i < |plan| ==> newPopulation.tours[i] !in old(pop.Members())
      ensures forall i :: from <= i < |plan| ==> newPopulation.tours[i].registry == registry && fresh(newPopulation.tours[i])
      ensures forall i, j :: from <= i < j < |plan| ==> newPopulation.tours[i] != newPopulation.tours[j]
      ensures forall j :: 0 <= j < |kids| ==>
        kids[j] == Offspring(rows, scores, plan[from + j], mutationRate, tournamentSize, |registry.cities|)
    {
      ghost var start := newPopulation.tours;
      ghost var bred;
      made, bred := BreedFrom(pop, plan, newPopulation, from, rows, scores);
      BredAll(newPopulation, start, from, made, bred, old(pop.Members()));
      forall j | 0 <= j < |made| ensures Draws(plan[from + j].rolls, plan[from + j].picks, |bred[j]|) {
      }
      kids := MutateBred(pop, plan, newPopulation, from, made, bred, rows, scores);
      OffspringFrom(rows, scores, plan, from, bred, kids, mutationRate, tournamentSize, |registry.cities|);
      HeldFrom(newPopulation, from, made);
    }

    /**
     * The slots from `from` on of a population that ends in the distinct
     * tours `made`, all over the registry, hold distinct tours of `made`
     * over the registry.
     */
    lemma HeldFrom(p: Population, from: nat, made: seq<Tour>)
      requires from <= |p.tours| && p.tours[from..] == made && Sound(made) && Distinct(made)
      ensures forall i :: from <= i < |p.tours| ==> p.tours[i] in (set t | t in made) && p.tours[i].registry == registry
      ensures forall i, j :: from <= i < j < |p.tours| ==> p.tours[i] != p.tours[j]
    {
      forall i | from <= i < |p.tours| ensures p.tours[i] == made[i - from] {
      }
    }

    /** Once the breeding loop has filled every slot from `from` on, those slots hold `made`, whose rows are `bred`. */
    lemma BredAll(newPopulation: Population, start: seq<Tour?>, from: nat, made: seq<Tour>,
                  bred: seq<seq<Option<City>>>, members: set<Tour>)
      requires Progress(newPopulation, start, from, |bred|, made, bred, members) && from + |bred| == |start|
      ensures newPopulation.tours == start[..from] + made && newPopulation.tours[from..] == made
      ensures Distinct(made) && Built(made, bred)
      ensures forall i :: from <= i < |start| ==> newPopulation.tours[i] !in members
    {
      assert bred[..|bred|] == bred;
      assert start[from + |bred|..] == [];
    }

    /**
     * Mutates the freshly bred tours `made` in slots `from` on of
     * `newPopulation`, each with its own draws, so that each holds the
     * mutation of its row of `bred`; `pop` and the tours it holds stay as
     * they are.
     */
    method MutateBred(pop: Population, plan: seq<Breeding>, newPopulation: Population, from: nat,
                      ghost made: seq<Tour>, ghost bred: seq<seq<Option<City>>>,
                      ghost rows: seq<seq<Option<City>>>, ghost scores: seq<real>)
      returns (ghost kids: seq<seq<Option<City>>>)
      requires Steady(pop, rows, scores)
      requires |plan| == |newPopulation.tours| && from <= |plan|
      requires newPopulation.tours[from..] == made && Distinct(made) && Built(made, bred)
      requires forall j :: 0 <= j < |made| ==> made[j] !in pop.Members()
      requires forall j :: 0 <= j < |made| ==> Draws(plan[from + j].rolls, plan[from + j].picks, |bred[j]|)
      modifies made
      ensures Steady(pop, rows, scores)
      ensures Built(made, kids) && |kids| == |bred|
      ensures forall j :: 0 <= j < |kids| ==>
        kids[j] == Mutated(bred[j], mutationRate, plan[from + j].rolls, plan[from + j].picks, |bred[j]|)
    {
      kids := Mutations(bred, plan[from..], mutationRate);
      MutationsAt(bred, plan, from, mutationRate);
      ghost var members := pop.Members();
      label mutating:
      MutateFrom(newPopulation, plan, from, made, bred, kids);
      assert forall t :: t in members ==> unchanged@mutating(t);
      StaysSteady@mutating(pop, rows, scores);
    }

    /** When neither `pop` nor any tour it holds has changed, it is as steady as it was. */
    twostate lemma StaysSteady(pop: Population, new rows: seq<seq<Option<City>>>, new scores: seq<real>)
      requires old(pop.Ready() && pop.AllScorable()) && old(pop.Rows()) == rows && old(pop.Scores()) == scores
      requires unchanged(pop)
      requires forall t :: t in old(pop.Members()) ==> unchanged(t)
      ensures Steady(pop, rows, scores)
    {
      assert pop.Members() == old(pop.Members());
    }

    /**
     * The rows `head` (the elite's, with elitism) followed by the mutated
     * offspring of the remaining draws are the rows of the next generation.
     */
    lemma {:induction false} GenerationAssembled(rows: seq<seq<Option<City>>>, scores: seq<real>, plan: seq<Breeding>,
                              elitism: bool, rate: real, tournamentSize: nat, n: nat,
                              from: nat, head: seq<seq<Option<City>>>, kids: seq<seq<Option<City>>>)
      requires |rows| == |scores| == |plan| && Uniform(rows, n) && tournamentSize > 0
      requires elitism ==> |rows| > 0
      requires forall i :: 0 <= i < |plan| ==> Drawn(plan[i], tournamentSize, |rows|, n)
      requires from == |head| == (if elitism then 1 else 0)
      requires elitism ==> head[0] == rows[LastArgMax(scores)]
      requires from + |kids| == |plan|
      requires forall j :: 0 <= j < |kids| ==> kids[j] == Offspring(rows, scores, plan[from + j], rate, tournamentSize, n)
      ensures head + kids == NextGeneration(rows, scores, plan, elitism, rate, tournamentSize, n)
    {
      var next := NextGeneration(rows, scores, plan, elitism, rate, tournamentSize, n);
      forall i | 0 <= i < |head| ensures next[i] == head[i] {
        NextGenerationAt(rows, scores, plan, elitism, rate, tournamentSize, n, i);
      }
      forall j | 0 <= j < |kids| ensures next[from + j] == kids[j] {
        NextGenerationAt(rows, scores, plan, elitism, rate, tournamentSize, n, from + j);
      }
      Spliced(head, kids, next);
    }

    /** `pop` is ready, every tour it holds can be scored, and its rows and fitness values are `rows` and `scores`. */
    ghost predicate Steady(pop: Population, rows: seq<seq<Option<City>>>, scores: seq<real>)
      reads pop, pop.Members()
    {
      pop.Ready() && pop.AllScorable() && pop.Rows() == rows && pop.Scores() == scores
    }

    /**
     * Two tournaments and a crossover of their winners: the child the draws
     * `b` make before mutation. Only the caches of `pop`'s tours change.
     */
    method Breed(pop: Population, b: Breeding, ghost rows: seq<seq<Option<City>>>, ghost scores: seq<real>)
      returns (child: Tour)
      requires tournamentSize > 0 && Steady(pop, rows, scores)
      requires Uniform(rows, |registry.cities|) && Drawn(b, tournamentSize, |rows|, |registry.cities|)
      modifies pop.Members()`distance, pop.Members()`fitness
      ensures Steady(pop, rows, scores)
      ensures fresh(child) && child.registry == registry && child.Valid()
      ensures child.tour == Bred(rows, scores, b, tournamentSize, |registry.cities|)
    {
      var parent1 := TournamentSelection(pop, b.first);
      ghost var row1 := parent1.tour;
      assert row1 == rows[Tournament(scores, b.first)];
      var parent2 := TournamentSelection(pop, b.second);
      assert parent1.tour == row1;
      label crossing:
      child := Crossover(parent1, parent2, b.startPos, b.endPos);
      StaysSteady@crossing(pop, rows, scores);
    }

    /**
     * One round of the breeding loop: breeds the child for slot `from + k`
     * with the draws `b` and puts it there. The child is new, so it is none
     * of the children `made` so far and none of `pop`'s tours, and the
     * children made so far stay as they are: the loop advances by one slot.
     */
    method BreedInto(pop: Population, b: Breeding, newPopulation: Population,
                     ghost rows: seq<seq<Option<City>>>, ghost scores: seq<real>,
                     ghost start: seq<Tour?>, from: nat, k: nat, ghost made: seq<Tour>,
                     ghost bred: seq<seq<Option<City>>>, ghost members: set<Tour>)
      returns (ghost child: Tour)
      requires tournamentSize > 0 && Steady(pop, rows, scores) && pop.Members() == members
      requires Uniform(rows, |registry.cities|) && Drawn(b, tournamentSize, |rows|, |registry.cities|)
      requires pop != newPopulation && from + k < |start| && k < |bred|
      requires Progress(newPopulation, start, from, k, made, bred, members)
      requires bred[k] == Bred(rows, scores, b, tournamentSize, |registry.cities|)
      modifies newPopulation, pop.Members()`distance, pop.Members()`fitness
      ensures Steady(pop, rows, scores) && pop.Members() == members
      ensures Progress(newPopulation, start, from, k + 1, made + [child], bred, members)
      ensures fresh(child)
    {
      label before:
      var c := Breed(pop, b, rows, scores);
      ghost var prior := newPopulation.tours;
      newPopulation.SaveTour(from + k, c);
      child := c;
      Advance@before(newPopulation, prior, start, from, k, made, bred, members, child);
    }

    /** Each of `made` is a tour over the registry whose caches are consistent. */
    ghost predicate Sound(made: seq<Tour>)
      reads made
    {
      forall j :: 0 <= j < |made| ==> made[j].registry == registry && made[j].Valid()
    }

    /** The slot rows of `made`, tour by tour. */
    ghost function TourRows(made: seq<Tour>): (r: seq<seq<Option<City>>>)
      reads made
      ensures |r| == |made| && forall j :: 0 <= j < |made| ==> r[j] == made[j].tour
    {
      seq(|made|, j requires 0 <= j < |made| reads made => made[j].tour)
    }

    /** Each of `made` is a consistent tour over the registry whose slots are the matching row of `rows`. */
    ghost predicate Built(made: seq<Tour>, rows: seq<seq<Option<City>>>)
      reads made
    {
      Sound(made) && TourRows(made) == rows
    }

    /**
     * The breeding loop has filled the `k` slots from `from` on of
     * `newPopulation`, which held `start`, with the distinct new tours
     * `made`, none of them a tour of the old population (`members`), holding
     * the first `k` rows of `bred`.
     */
    ghost predicate Progress(newPopulation: Population, start: seq<Tour?>, from: nat, k: nat, made: seq<Tour>,
                             bred: seq<seq<Option<City>>>, members: set<Tour>)
      reads newPopulation, made
    {
      from + k <= |start| && |made| == k && k <= |bred| &&
      newPopulation.tours == start[..from] + made + start[from + k..] &&
      Distinct(made) && (forall j :: 0 <= j < |made| ==> made[j] !in members) &&
      Built(made, bred[..k])
    }

    /** Putting one more new tour into slot `from + k` advances the breeding loop by one slot. */
    twostate lemma Advance(new newPopulation: Population, new prior: seq<Tour?>, new start: seq<Tour?>,
                           new from: nat, new k: nat, made: seq<Tour>,
                           new bred: seq<seq<Option<City>>>, new members: set<Tour>, new child: Tour)
      requires from + k < |start| && |made| == k && k < |bred|
      requires prior == start[..from] + made + start[from + k..]
      requires Distinct(made) && (forall j :: 0 <= j < |made| ==> made[j] !in members)
      requires old(Sound(made)) && old(TourRows(made)) == bred[..k]
      requires newPopulation.tours == prior[from + k := child]
      requires forall j :: 0 <= j < |made| ==> unchanged(made[j])
      requires child.registry == registry && child.Valid() && child.tour == bred[k]
      requires child !in made && child !in members
      ensures Progress(newPopulation, start, from, k + 1, made + [child], bred, members)
    {
      Placed(start, made, from, from + k, child);
      DistinctAppend(made, child);
      assert bred[..k + 1] == bred[..k] + [bred[k]];
    }

    /**
     * The breeding loop of a generation step: from slot `from` on, each slot
     * of `newPopulation` receives a new, unmutated child of `pop`'s tours,
     * bred with that slot's draws. Only the caches of `pop`'s tours change.
     */
    method BreedFrom(pop: Population, plan: seq<Breeding>, newPopulation: Population, from: nat,
                     ghost rows: seq<seq<Option<City>>>, ghost scores: seq<real>)
      returns (ghost made: seq<Tour>, ghost bred: seq<seq<Option<City>>>)
      requires tournamentSize > 0 && Steady(pop, rows, scores) && Uniform(rows, |registry.cities|)
      requires pop != newPopulation && |plan| == |rows| == |newPopulation.tours| && from <= |plan|
      requires forall i :: 0 <= i < |plan| ==> Drawn(plan[i], tournamentSize, |rows|, |registry.cities|)
      modifies newPopulation, pop.Members()`distance, pop.Members()`fitness
      ensures Steady(pop, rows, scores)
      ensures from + |bred| == |plan|
      ensures forall j :: 0 <= j < |bred| ==> bred[j] == Bred(rows, scores, plan[from + j], tournamentSize, |registry.cities|)
      ensures Progress(newPopulation, old(newPopulation.tours), from, |bred|, made, bred, old(pop.Members()))
      ensures fresh(set t | t in made)
    {
      ghost var members := pop.Members();
      bred := BredRows(rows, scores, plan[from..], tournamentSize, |registry.cities|);
      BredRowsAt(rows, scores, plan, from, tournamentSize, |registry.cities|);
      ghost var start := newPopulation.tours;
      made := [];
      assert start[..from] + made + start[from..] == start;
      // Step `k` of the loop breeds the child for slot `from + k`.
      for k := 0 to newPopulation.PopulationSize() - from
        invariant Steady(pop, rows, scores) && pop.Members() == members
        invariant Progress(newPopulation, start, from, k, made, bred, members)
        invariant fresh(set t | t in made)
      {
        var child := BreedInto(pop, plan[from + k], newPopulation, rows, scores, start, from, k, made, bred, members);
        made := made + [child];
      }
    }

    /** Row `j` of the crossovers bred from the entries of `plan` after `from` is the one entry `from + j` makes. */
    lemma BredRowsAt(rows: seq<seq<Option<City>>>, scores: seq<real>, plan: seq<Breeding>, from: nat,
                     tournamentSize: nat, n: nat)
      requires |rows| == |scores| && Uniform(rows, n) && tournamentSize > 0 && from <= |plan|
      requires forall i :: 0 <= i < |plan| ==> Drawn(plan[i], tournamentSize, |rows|, n)
      ensures forall j :: 0 <= j < |plan| - from ==>
        BredRows(rows, scores, plan[from..], tournamentSize, n)[j] == Bred(rows, scores, plan[from + j], tournamentSize, n)
    {
      forall j | 0 <= j < |plan| - from
        ensures BredRows(rows, scores, plan[from..], tournamentSize, n)[j] == Bred(rows, scores, plan[from + j], tournamentSize, n)
      {
        assert plan[from..][j] == plan[from + j];
      }
    }

    /** `row` becomes `result` under the mutation with the draws of `b`. */
    ghost predicate MutatesTo(row: seq<Option<City>>, b: Breeding, result: seq<Option<City>>) {
      Draws(b.rolls, b.picks, |row|) && result == Mutated(row, mutationRate, b.rolls, b.picks, |row|)
    }

    /**
     * The mutation loop of a generation step: from slot `from` on, each tour
     * of `population`, all of them distinct, is mutated in place with that
     * slot's draws, so that it holds its row of `done`.
     */
    method MutateFrom(population: Population, plan: seq<Breeding>, from: nat,
                      ghost made: seq<Tour>, ghost bred: seq<seq<Option<City>>>, ghost done: seq<seq<Option<City>>>)
      requires |plan| == |population.tours| && from <= |plan|
      requires population.tours[from..] == made && Distinct(made) && Built(made, bred) && |done| == |made|
      requires forall j :: 0 <= j < |made| ==> MutatesTo(bred[j], plan[from + j], done[j])
      modifies made
      ensures Built(made, done)
    {
      // Step `k` of the loop mutates slot `from + k`.
      for k := 0 to population.PopulationSize() - from
        invariant population.tours[from..] == made
        invariant Built(made, done[..k] + bred[k..])
      {
        MutateSlot(population, plan, from, k, made, bred, done);
      }
      Overwritten(done, bred, |made|);
    }

    /**
     * One step of the mutation loop: the tour in slot `from + k` is mutated
     * in place, so that it holds its row of `done`; the other tours stay.
     */
    method MutateSlot(population: Population, plan: seq<Breeding>, from: nat, k: nat,
                      ghost made: seq<Tour>, ghost bred: seq<seq<Option<City>>>, ghost done: seq<seq<Option<City>>>)
      requires |plan| == |population.tours| && from + k < |plan|
      requires population.tours[from..] == made && Distinct(made) && |bred| == |done| == |made|
      requires MutatesTo(bred[k], plan[from + k], done[k])
      requires Built(made, done[..k] + bred[k..])
      modifies made[k]
      ensures Built(made, done[..k + 1] + bred[k + 1..])
    {
      ghost var rows := done[..k] + bred[k..];
      var i := from + k;
      assert made[k] == population.tours[i] && made[k].tour == bred[k];
      label before:
      Mutate(population.GetTour(i), plan[i].rolls, plan[i].picks);
      MutatedOne@before(made, rows, k, done[k]);
      Overwritten(done, bred, k);
    }

    /** Row `j` of the mutated rows is row `j` of `rows` mutated with the draws of entry `from + j`. */
    lemma MutationsAt(rows: seq<seq<Option<City>>>, plan: seq<Breeding>, from: nat, rate: real)
      requires from <= |plan| && |plan| - from == |rows|
      requires forall j :: 0 <= j < |rows| ==> Draws(plan[from + j].rolls, plan[from + j].picks, |rows[j]|)
      ensures forall j :: 0 <= j < |rows| ==>
        Mutations(rows, plan[from..], rate)[j] == Mutated(rows[j], rate, plan[from + j].rolls, plan[from + j].picks, |rows[j]|)
    {
      forall j | 0 <= j < |rows|
        ensures Mutations(rows, plan[from..], rate)[j] == Mutated(rows[j], rate, plan[from + j].rolls, plan[from + j].picks, |rows[j]|)
      {
        assert plan[from..][j] == plan[from + j];
      }
    }

    /** When one tour of `made` changes and the others stay, `Built` holds with that tour's new row. */
    twostate lemma MutatedOne(made: seq<Tour>, new rows: seq<seq<Option<City>>>, new k: nat, new row: seq<Option<City>>)
      requires old(Sound(made)) && old(TourRows(made)) == rows && k < |made|
      requires forall j :: 0 <= j < |made| && j != k ==> unchanged(made[j])
      requires made[k].Valid() && made[k].tour == row
      ensures Built(made, rows[k := row])
    {
    }
  }
}
