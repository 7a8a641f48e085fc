/**
 * A population (`Population`): a fixed number of slots, each holding a tour
 * or nothing. The same tour object may sit in several slots, as it does in a
 * tournament. `getFittest` scans the slots keeping a running best and
 * replaces it whenever a later tour is at least as fit, so the last of the
 * fittest tours wins; `LastArgMax` is that scan stated on the fitness values.
 */
module Populations {
  import opened Slots
  import opened Cities
  import opened Tours

  /**
   * The position the fittest-scan over `fs` ends on: the running best starts
   * at position 0 and moves to each later position whose value is at least
   * as large.
   */
  function LastArgMax(fs: seq<real>): (k: nat)
    requires |fs| > 0
    ensures k < |fs|
  {
    if |fs| == 1 then 0
    else
      var k := LastArgMax(fs[..|fs| - 1]);
      if fs[k] <= fs[|fs| - 1] then |fs| - 1 else k
  }

  /**
   * The scan ends on a largest value, and every position after it holds a
   * strictly smaller one: among equal maxima, the last wins.
   */
  lemma {:induction false} LastArgMaxIsLastMax(fs: seq<real>)
    requires |fs| > 0
    ensures forall j :: 0 <= j < |fs| ==> fs[j] <= fs[LastArgMax(fs)]
    ensures forall j :: LastArgMax(fs) < j < |fs| ==> fs[j] < fs[LastArgMax(fs)]
  {
    if |fs| > 1 {
      var init := fs[..|fs| - 1];
      LastArgMaxIsLastMax(init);
      assert forall j :: 0 <= j < |init| ==> init[j] == fs[j];
    }
  }

  /** The running best after the scan has visited the first `i` values (position 0 before any). */
  function ScanUpTo(fs: seq<real>, i: nat): nat
    requires 0 < |fs| && i <= |fs|
  {
    if i == 0 then 0 else LastArgMax(fs[..i])
  }

  /** One more step of the scan: the running best is replaced by a later value at least as large. */
  lemma ScanStep(fs: seq<real>, i: nat)
    requires i < |fs|
    ensures ScanUpTo(fs, i) < |fs|
    ensures ScanUpTo(fs, i + 1) == if fs[ScanUpTo(fs, i)] <= fs[i] then i else ScanUpTo(fs, i)
  {
    if i > 0 {
      assert fs[..i + 1][..i] == fs[..i];
    }
  }

  class Population {
    var tours: seq<Tour?>

    /** The tours the population holds. */
    ghost function Members(): (m: set<Tour>)
      reads this
      ensures forall i :: 0 <= i < |tours| && tours[i] != null ==> tours[i] in m
    {
      set i | 0 <= i < |tours| && tours[i] != null :: tours[i]
    }

    /** Every slot holds a tour, and every tour held has consistent caches. */
    ghost predicate Ready()
      reads this, Members()
    {
      (forall i :: 0 <= i < |tours| ==> tours[i] != null) &&
      forall t :: t in Members() ==> t.Valid()
    }

    /** Every tour held can be asked for its fitness. */
    ghost predicate AllScorable()
      reads this, Members()
    {
      (forall i :: 0 <= i < |tours| ==> tours[i] != null) &&
      forall t :: t in Members() ==> t.Scorable()
    }

    /** The slot rows of the tours held, slot by slot. */
    ghost function Rows(): (r: seq<seq<Option<City>>>)
      reads this, Members()
      requires forall i :: 0 <= i < |tours| ==> tours[i] != null
      ensures |r| == |tours| && forall i :: 0 <= i < |tours| ==> r[i] == tours[i].tour
    {
      seq(|tours|, i requires 0 <= i < |tours| && tours[i] != null reads this, Members() => tours[i].tour)
    }

    /** The fitness of the tours held, slot by slot. */
    ghost function Scores(): (r: seq<real>)
      reads this, Members()
      requires AllScorable()
      ensures |r| == |tours|
      ensures forall i :: 0 <= i < |tours| ==> r[i] == Fitness(tours[i].tour, tours[i].registry.dist)
    {
      seq(|tours|, i requires 0 <= i < |tours| && tours[i] != null && tours[i].Scorable() reads this, Members() =>
        Fitness(tours[i].tour, tours[i].registry.dist))
    }

    /**
     * When only the caches of tours held have changed, and those in `part`
     * are consistent and scorable while the others kept their old caches,
     * the population is as ready as it was and no slot row and no fitness
     * has changed.
     */
    twostate lemma CachesOnly(part: set<Tour>)
      requires old(Ready() && AllScorable()) && unchanged(this)
      requires forall t :: t in old(Members()) ==> t.tour == old(t.tour)
      requires forall t :: t in old(Members()) && t !in part ==> unchanged(t)
      requires forall t :: t in part ==> t.Valid() && t.Scorable()
      ensures Ready() && AllScorable()
      ensures Rows() == old(Rows()) && Scores() == old(Scores())
    {
      assert Members() == old(Members());
      forall t | t in Members() ensures t.Valid() && t.Scorable() {
        if t !in part {
          assert old(t.Valid() && t.Scorable());
        }
      }
    }

    /**
     * A population of `populationSize` slots. Without `initialise` every slot
     * is empty; with it, slot `i` holds a new tour of the registry's cities
     * shuffled by `orders[i]`, which stands for that tour's random shuffle.
     */
    constructor (registry: Registry, populationSize: nat, initialise: bool, orders: seq<seq<nat>>)
      requires initialise ==> |orders| == populationSize
      requires initialise ==> forall i :: 0 <= i < populationSize ==> IsShuffle(orders[i], |registry.cities|)
      ensures |tours| == populationSize
      ensures !initialise ==> forall i :: 0 <= i < populationSize ==> tours[i] == null
      ensures initialise ==> Ready()
      ensures initialise ==> forall i :: 0 <= i < populationSize ==>
        fresh(tours[i]) && tours[i].registry == registry &&
        tours[i].tour == Shuffled(registry.cities, orders[i])
      ensures initialise ==> forall i :: 0 <= i < populationSize ==> IsTourOf(tours[i].tour, registry.cities)
      ensures initialise ==> forall i, j :: 0 <= i < j < populationSize ==> tours[i] != tours[j]
    {
      tours := seq(populationSize, _ => null);
      new;
      if initialise {
        for i := 0 to populationSize
          invariant |tours| == populationSize
          invariant forall j :: i <= j < populationSize ==> tours[j] == null
          invariant forall j :: 0 <= j < i ==>
            tours[j] != null && fresh(tours[j]) && tours[j].Valid() && tours[j].registry == registry &&
            tours[j].tour == Shuffled(registry.cities, orders[j])
          invariant forall j, k :: 0 <= j < k < i ==> tours[j] != tours[k]
        {
          var newTour := new Tour(registry);
          newTour.GenerateIndividual(orders[i]);
          SaveTour(i, newTour);
        }
        forall i | 0 <= i < populationSize ensures IsTourOf(tours[i].tour, registry.cities) {
          ShuffleIsTour(registry.cities, orders[i]);
        }
      }
    }

    /** Puts `tour` into slot `index`, leaving every other slot alone. */
    method SaveTour(index: nat, tour: Tour?)
      requires index < |tours|
      modifies this
      ensures tours == old(tours)[index := tour]
    {
      tours := tours[index := tour];
    }

    function GetTour(index: nat): Tour?
      reads this
      requires index < |tours|
    {
      tours[index]
    }

    function PopulationSize(): nat
      reads this
    {
      |tours|
    }

    /** Every slot holds a consistent, scorable tour, and the slot rows and fitness values are `rows` and `scores`. */
    ghost predicate Steady(rows: seq<seq<Option<City>>>, scores: seq<real>)
      reads this, Members()
    {
      Ready() && AllScorable() && Rows() == rows && Scores() == scores
    }

    /**
     * The fitness of a tour held, asked of that tour, which may fill its
     * caches; no slot row and no fitness changes.
     */
    method FitnessOf(t: Tour, ghost rows: seq<seq<Option<City>>>, ghost scores: seq<real>) returns (f: real)
      requires t in tours && Steady(rows, scores)
      modifies Members()`distance, Members()`fitness
      ensures Steady(rows, scores)
      ensures f == Fitness(t.tour, t.registry.dist)
    {
      f := t.GetFitness();
    }

    /**
     * One step of the fittest-scan: compares the running best, in slot `k`,
     * with the tour in slot `i` and keeps the later one when it is at least
     * as fit. Only the tours' caches change.
     */
    method ScanSlot(fittest: Tour, i: nat, ghost k: nat, ghost rows: seq<seq<Option<City>>>, ghost scores: seq<real>)
      returns (next: Tour, ghost k': nat)
      requires Steady(rows, scores) && i < |tours|
      requires k < |tours| && fittest == tours[k] && k == ScanUpTo(scores, i)
      modifies Members()`distance, Members()`fitness
      ensures Steady(rows, scores)
      ensures k' < |tours| && next == tours[k'] && k' == ScanUpTo(scores, i + 1)
    {
      var best := FitnessOf(fittest, rows, scores);
      var candidate := FitnessOf(GetTour(i), rows, scores);
      ScanStep(scores, i);
      next, k' := fittest, k;
      if best <= candidate {
        next, k' := GetTour(i), i;
      }
    }

    /**
     * The fittest tour held: the one in the slot the scan ends on, so its
     * fitness is at least every other tour's and, among equally fit tours,
     * the one in the highest slot wins. Only the tours' caches change.
     */
    method GetFittest() returns (fittest: Tour)
      requires |tours| > 0 && Ready() && AllScorable()
      modifies Members()`distance, Members()`fitness
      ensures Ready() && AllScorable()
      ensures Rows() == old(Rows()) && Scores() == old(Scores())
      ensures fittest == tours[LastArgMax(Scores())]
    {
      ghost var rows, scores := Rows(), Scores();
      fittest := tours[0];
      ghost var k: nat := 0;
      for i := 0 to PopulationSize()
        invariant Steady(rows, scores)
        invariant k < |tours|
        invariant fittest == tours[k] && k == ScanUpTo(scores, i)
      {
        fittest, k := ScanSlot(fittest, i, k, rows, scores);
      }
      assert scores[..|tours|] == scores;
    }
  }
}
