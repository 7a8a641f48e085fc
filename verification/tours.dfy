/**
 * A tour (`Tour`): a fixed-length row of city slots, together with a cached
 * closed-loop length and fitness. The value 0 in either cache means "not
 * computed yet"; writing a slot clears both caches, and the getters fill
 * them on demand. The first half of the module defines the length of a
 * closed tour and proves what the getters rely on; the class follows.
 */
module Tours {
  import opened Slots
  import opened Cities

  // ---------------------------------------------------------------------
  // The length of a closed tour.

  /** The position after `i` on a closed loop of `n` slots. */
  function Next(i: nat, n: nat): nat
    requires i < n
  {
    if i + 1 < n then i + 1 else 0
  }

  /**
   * The length of the first `k` legs of the closed tour `cs`, where leg `i`
   * runs from `cs[i]` to the city after it, and the last leg runs back to
   * `cs[0]`. This is the sum the distance loop accumulates.
   */
  function LegSum(cs: seq<City>, dist: (City, City) -> real, k: nat): real
    requires k <= |cs|
  {
    if k == 0 then 0.0
    else LegSum(cs, dist, k - 1) + dist(cs[k - 1], cs[Next(k - 1, |cs|)])
  }

  /** The length of the open path through `cs`, from its first city to its last. */
  function PathLength(cs: seq<City>, dist: (City, City) -> real): real {
    if |cs| <= 1 then 0.0
    else PathLength(cs[..|cs| - 1], dist) + dist(cs[|cs| - 2], cs[|cs| - 1])
  }

  /** The open path through `cs` followed by the edge from its last city back to its first. */
  function ClosedLength(cs: seq<City>, dist: (City, City) -> real): real {
    if cs == [] then 0.0 else PathLength(cs, dist) + dist(cs[|cs| - 1], cs[0])
  }

  /** The length of a tour without empty slots. */
  function TourLength(s: seq<Option<City>>, dist: (City, City) -> real): real
    requires None !in s
  {
    ClosedLength(Values(s), dist)
  }

  /** The fitness of a tour: the reciprocal of its length, defined when the length is not zero. */
  function Fitness(s: seq<Option<City>>, dist: (City, City) -> real): real
    requires None !in s && TourLength(s, dist) != 0.0
  {
    1.0 / TourLength(s, dist)
  }

  /** Short of the closing leg, the first `k` legs are the open path through the first `k + 1` cities. */
  lemma {:induction false} LegsArePath(cs: seq<City>, dist: (City, City) -> real, k: nat)
    requires k < |cs|
    ensures LegSum(cs, dist, k) == PathLength(cs[..k + 1], dist)
  {
    if k > 0 {
      LegsArePath(cs, dist, k - 1);
      assert cs[..k + 1][..k] == cs[..k];
    }
  }

  /**
   * Summing every leg, the closing one included, gives the open path
   * through all the cities plus the edge from the last back to the first.
   */
  lemma {:induction false} LegSumIsClosedLength(cs: seq<City>, dist: (City, City) -> real)
    ensures LegSum(cs, dist, |cs|) == ClosedLength(cs, dist)
  {
    if cs != [] {
      LegsArePath(cs, dist, |cs| - 1);
      assert cs[..|cs|] == cs;
    }
  }

  /** An open path along edges of non-negative weight has non-negative length. */
  lemma {:induction false} PathLengthNonNegative(cs: seq<City>, dist: (City, City) -> real, within: seq<City>)
    requires forall a, b :: a in within && b in within ==> dist(a, b) >= 0.0
    requires forall i :: 0 <= i < |cs| ==> cs[i] in within
    ensures PathLength(cs, dist) >= 0.0
  {
    if |cs| > 1 {
      PathLengthNonNegative(cs[..|cs| - 1], dist, within);
      assert cs[|cs| - 2] in within && cs[|cs| - 1] in within;
    }
  }

  /** A complete tour of the registered cities has non-negative length. */
  lemma TourLengthNonNegative(s: seq<Option<City>>, registry: Registry)
    requires registry.Valid() && IsTourOf(s, registry.cities)
    ensures TourLength(s, registry.dist) >= 0.0
  {
    var cs := Values(s);
    forall i | 0 <= i < |cs| ensures cs[i] in registry.cities {
      assert cs[i] in multiset(cs);
    }
    PathLengthNonNegative(cs, registry.dist, registry.cities);
    if cs != [] {
      assert cs[|cs| - 1] in registry.cities && cs[0] in registry.cities;
    }
  }

  /**
   * Under the straight-line distance, a complete tour of distinct cities
   * never has negative length, and its length is positive exactly when it
   * visits at least two cities: only then is its fitness defined.
   */
  lemma EuclideanTourLength(s: seq<Option<City>>, registry: Registry)
    requires Distinct(registry.cities) && IsEuclidean(registry.dist, registry.cities)
    requires IsTourOf(s, registry.cities)
    ensures TourLength(s, registry.dist) >= 0.0
    ensures TourLength(s, registry.dist) > 0.0 <==> |registry.cities| >= 2
  {
    EuclideanRegistry(registry);
    TourLengthNonNegative(s, registry);
    TourVisitsEachOnce(s, registry.cities);
    TourValuesWithin(s, registry.cities);
    var cs := Values(s);
    if |cs| >= 2 {
      assert s[|cs| - 2] != s[|cs| - 1];
      EuclideanPathPositive(cs, registry.dist, registry.cities);
    } else if |cs| == 1 {
      EuclideanZero(registry.dist, registry.cities, cs[0], cs[0]);
    }
  }

  /** The values of a complete tour are its slots' cities, each one of the list. */
  lemma TourValuesWithin(s: seq<Option<City>>, cities: seq<City>)
    requires IsTourOf(s, cities)
    ensures |Values(s)| == |s|
    ensures forall i :: 0 <= i < |s| ==> s[i] == Some(Values(s)[i]) && Values(s)[i] in cities
  {
    ValuesOfFull(s);
    TourWithin(s, cities);
  }

  /** Under the straight-line distance, an open path whose last two cities differ has positive length. */
  lemma EuclideanPathPositive(cs: seq<City>, dist: (City, City) -> real, cities: seq<City>)
    requires IsEuclidean(dist, cities) && |cs| >= 2 && cs[|cs| - 2] != cs[|cs| - 1]
    requires forall i :: 0 <= i < |cs| ==> cs[i] in cities
    ensures PathLength(cs, dist) > 0.0
  {
    var n := |cs|;
    EuclideanZero(dist, cities, cs[n - 2], cs[n - 1]);
    PathLengthNonNegative(cs[..n - 1], dist, cities);
  }

  /**
   * Fitness orders tours the opposite way to length: of two tours of
   * positive length, the shorter one is at least as fit.
   */
  lemma FitnessOrder(s: seq<Option<City>>, t: seq<Option<City>>, dist: (City, City) -> real)
    requires None !in s && None !in t
    requires TourLength(s, dist) > 0.0 && TourLength(t, dist) > 0.0
    ensures Fitness(s, dist) > 0.0
    ensures Fitness(s, dist) <= Fitness(t, dist) <==> TourLength(t, dist) <= TourLength(s, dist)
  {
    var a, b := TourLength(s, dist), TourLength(t, dist);
    assert 1.0 / a * a == 1.0 && 1.0 / b * b == 1.0;
    if 1.0 / a <= 1.0 / b {
      assert 1.0 / a * (a * b) <= 1.0 / b * (a * b);
    }
    if b <= a {
      assert b * (1.0 / a * (1.0 / b)) <= a * (1.0 / a * (1.0 / b));
    }
  }

  // ---------------------------------------------------------------------
  // Shuffling.

  /** `order` is a rearrangement of the positions `0 .. n - 1`. */
  predicate IsShuffle(order: seq<nat>, n: nat) {
    |order| == n && Distinct(order) && forall i :: 0 <= i < n ==> order[i] < n
  }

  /** The row whose `i`-th entry is entry `order[i]` of `s`. */
  function Permute<X>(s: seq<X>, order: seq<nat>): seq<X>
    requires forall i :: 0 <= i < |order| ==> order[i] < |s|
  {
    seq(|order|, i requires 0 <= i < |order| => s[order[i]])
  }

  /** The registered cities, one per slot, in registry order. */
  function InOrder(cities: seq<City>): seq<Option<City>> {
    seq(|cities|, i requires 0 <= i < |cities| => Some(cities[i]))
  }

  /** The registered cities, each in a slot of its own, rearranged by `order`. */
  function Shuffled(cities: seq<City>, order: seq<nat>): seq<Option<City>>
    requires IsShuffle(order, |cities|)
  {
    Permute(InOrder(cities), order)
  }

  /** The positions `0 .. n - 1`, in order. */
  function Positions(n: nat): (r: seq<nat>)
    ensures |r| == n && forall i :: 0 <= i < n ==> r[i] == i
  {
    seq(n, i => i)
  }

  /** A rearrangement of the positions `0 .. n - 1` holds every one of them. */
  lemma ShuffleHasAll(order: seq<nat>, n: nat, p: nat)
    requires IsShuffle(order, n) && p < n
    ensures p in order
  {
    var r := Positions(n);
    forall i | 0 <= i < n ensures order[i] in r {
      assert r[order[i]] == order[i];
    }
    DistinctSameLength(order, r);
    assert r[p] == p;
    assert p in multiset(r);
  }

  /** `order` with its entry at `k` taken out. */
  function Without(order: seq<nat>, k: nat): (r: seq<nat>)
    requires k < |order|
    ensures |r| == |order| - 1
    ensures forall i :: 0 <= i < |r| ==> r[i] == if i < k then order[i] else order[i + 1]
  {
    order[..k] + order[k + 1..]
  }

  /** Taking the last position out of a shuffle leaves a shuffle of the positions before it. */
  lemma WithoutLast(order: seq<nat>, n: nat, k: nat)
    requires IsShuffle(order, n) && k < n && order[k] == n - 1
    ensures IsShuffle(Without(order, k), n - 1)
  {
    var rest := Without(order, k);
    forall i | 0 <= i < n - 1 ensures rest[i] < n - 1 {
      assert (if i < k then i else i + 1) != k;
    }
    forall i, j | 0 <= i < j < n - 1 ensures rest[i] != rest[j] {
      assert (if i < k then i else i + 1) < (if j < k then j else j + 1);
    }
  }

  /**
   * Rearranging by `order` puts the last entry at `k`, where `order` sends
   * it, and the rest in the order the shuffle without it gives.
   */
  lemma PermuteSplit<X>(s: seq<X>, order: seq<nat>, k: nat)
    requires |s| > 0 && IsShuffle(order, |s|) && k < |s| && order[k] == |s| - 1
    requires IsShuffle(Without(order, k), |s| - 1)
    ensures Permute(s, order) ==
      Permute(s[..|s| - 1], Without(order, k))[..k] + [s[|s| - 1]] + Permute(s[..|s| - 1], Without(order, k))[k..]
  {
    var q := Permute(s[..|s| - 1], Without(order, k));
    var p := Permute(s, order);
    forall i | 0 <= i < |s| ensures p[i] == (q[..k] + [s[|s| - 1]] + q[k..])[i] {
      if i > k {
        assert q[i - 1] == s[order[i]];
      }
    }
  }

  /**
   * Rearranging a row by a shuffle of its positions gains and loses
   * nothing, whether or not the row repeats an entry.
   */
  lemma {:induction false} PermuteKeepsMultiset<X>(s: seq<X>, order: seq<nat>)
    requires IsShuffle(order, |s|)
    ensures multiset(Permute(s, order)) == multiset(s)
  {
    var n := |s|;
    if n > 0 {
      ShuffleHasAll(order, n, n - 1);
      var k :| 0 <= k < n && order[k] == n - 1;
      WithoutLast(order, n, k);
      var init := s[..n - 1];
      PermuteKeepsMultiset(init, Without(order, k));
      var q := Permute(init, Without(order, k));
      PermuteSplit(s, order, k);
      InsertKeepsMultiset(q, k, s[n - 1]);
      assert s == init + [s[n - 1]];
    }
  }

  /** Inserting an entry into a row adds just that entry to its multiset. */
  lemma InsertKeepsMultiset<X>(q: seq<X>, k: nat, x: X)
    requires k <= |q|
    ensures multiset(q[..k] + [x] + q[k..]) == multiset(q) + multiset{x}
  {
    assert q == q[..k] + q[k..];
  }

  /**
   * Shuffling the registered cities, each in a slot of its own, yields a
   * complete tour of them.
   */
  lemma ShuffleIsTour(cities: seq<City>, order: seq<nat>)
    requires IsShuffle(order, |cities|)
    ensures IsTourOf(Shuffled(cities, order), cities)
  {
    var s := Permute(InOrder(cities), order);
    var cs := Permute(cities, order);
    ValuesOfFull(s);
    assert Values(s) == cs;
    PermuteKeepsMultiset(cities, order);
  }

  // ---------------------------------------------------------------------
  // The tour object.

  class Tour {
    const registry: Registry
    var tour: seq<Option<City>>
    var fitness: real
    var distance: real

    /** Each cache is either unset (0) or holds the value for the current slots. */
    ghost predicate Valid()
      reads this
    {
      (distance != 0.0 ==> None !in tour && distance == TourLength(tour, registry.dist)) &&
      (fitness != 0.0 ==>
         None !in tour && TourLength(tour, registry.dist) != 0.0 && fitness == Fitness(tour, registry.dist))
    }

    /** The fitness can be asked for: every slot is filled and the length is not zero. */
    ghost predicate Scorable()
      reads this
    {
      None !in tour && TourLength(tour, registry.dist) != 0.0
    }

    /** A tour with one empty slot per registered city and both caches unset. */
    constructor (registry: Registry)
      ensures this.registry == registry
      ensures tour == Nones(|registry.cities|)
      ensures fitness == 0.0 && distance == 0.0
      ensures Valid()
    {
      this.registry := registry;
      tour := Nones(|registry.cities|);
      fitness := 0.0;
      distance := 0.0;
    }

    /** A tour over the given slots, with both caches unset. */
    constructor FromSlots(registry: Registry, slots: seq<Option<City>>)
      ensures this.registry == registry
      ensures tour == slots
      ensures fitness == 0.0 && distance == 0.0
      ensures Valid()
    {
      this.registry := registry;
      tour := slots;
      fitness := 0.0;
      distance := 0.0;
    }

    function TourSize(): nat
      reads this
    {
      |tour|
    }

    function GetCity(tourPosition: nat): Option<City>
      reads this
      requires tourPosition < |tour|
    {
      tour[tourPosition]
    }

    /** Writes one slot, leaves every other slot alone and clears both caches. */
    method SetCity(tourPosition: nat, city: Option<City>)
      requires tourPosition < |tour|
      modifies this
      ensures tour == old(tour)[tourPosition := city]
      ensures fitness == 0.0 && distance == 0.0
      ensures Valid()
    {
      tour := tour[tourPosition := city];
      fitness := 0.0;
      distance := 0.0;
    }

    /** Whether some slot holds `city`: for a city, whether it is among the tour's values. */
    predicate ContainsCity(city: Option<City>)
      reads this
      ensures city.Some? ==> (ContainsCity(city) <==> city.value in Values(tour))
    {
      if city.Some? then ValuesCount(tour, city.value); city in tour else city in tour
    }

    /**
     * The length of the closed tour: the cached value when there is one,
     * otherwise the sum of the edges between consecutive slots and the edge
     * from the last slot back to the first, which is then cached. A second
     * call returns the cached value.
     */
    method GetDistance() returns (d: real)
      requires Valid() && None !in tour
      modifies this`distance
      ensures Valid()
      ensures d == TourLength(tour, registry.dist) && distance == d
      ensures old(distance) != 0.0 ==> distance == old(distance)
    {
      if distance == 0.0 {
        var cs := Values(tour);
        ValuesOfFull(tour);
        var tourDistance := 0.0;
        for cityIndex := 0 to TourSize()
          invariant tourDistance == LegSum(cs, registry.dist, cityIndex)
        {
          var fromCity := GetCity(cityIndex);
          var destinationCity;
          if cityIndex + 1 < TourSize() {
            destinationCity := GetCity(cityIndex + 1);
          } else {
            destinationCity := GetCity(0);
          }
          tourDistance := tourDistance + registry.dist(fromCity.value, destinationCity.value);
        }
        LegSumIsClosedLength(cs, registry.dist);
        distance := tourDistance;
      }
      d := distance;
    }

    /**
     * The fitness of the tour, computed from the length and cached when no
     * cached value exists; a second call returns the cached value.
     */
    method GetFitness() returns (f: real)
      requires Valid() && Scorable()
      modifies this`distance, this`fitness
      ensures Valid()
      ensures f == Fitness(tour, registry.dist) && fitness == f
      ensures old(fitness) != 0.0 ==> fitness == old(fitness) && distance == old(distance)
    {
      if fitness == 0.0 {
        var d := GetDistance();
        fitness := 1.0 / d;
      }
      f := fitness;
    }

    /**
     * Puts every registered city into the slot of its own index, then
     * rearranges the slots by `order`, which stands for the random shuffle.
     */
    method GenerateIndividual(order: seq<nat>)
      requires |tour| == |registry.cities| && IsShuffle(order, |tour|)
      requires Valid()
      modifies this
      ensures tour == Shuffled(registry.cities, order)
      ensures fitness == 0.0 && distance == 0.0
      ensures Valid()
    {
      for cityIndex := 0 to registry.NumberOfCities()
        invariant |tour| == |registry.cities|
        invariant forall j :: 0 <= j < cityIndex ==> tour[j] == Some(registry.cities[j])
        invariant Valid()
        invariant |tour| == 0 || cityIndex > 0 ==> fitness == 0.0 && distance == 0.0
      {
        SetCity(cityIndex, Some(registry.GetCity(cityIndex)));
      }
      assert tour == InOrder(registry.cities);
      tour := Permute(tour, order);
    }
  }
}
