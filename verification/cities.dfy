/**
 * Cities and the registry of destination cities (`City` and `TourManager`).
 *
 * A city is a pair of integer coordinates that never change once the city
 * is made, so it is a value here: two cities are the same exactly when their
 * coordinates agree. The edge weight between two cities is kept abstract: the registry
 * carries it as a function, and `IsEuclidean` says when that function is the
 * straight-line distance that `City.distanceTo` computes, without floating
 * point or a square root.
 */
module Cities {
  import opened Slots

  /** A city at the given coordinates. */
  datatype City = City(x: int, y: int)

  /** The square of the straight-line distance between two cities. */
  function SquaredDistance(a: City, b: City): int {
    (a.x - b.x) * (a.x - b.x) + (a.y - b.y) * (a.y - b.y)
  }

  /**
   * Between any two of `cities`, `dist` is the straight-line distance: never
   * negative, and its square is the sum of the squared coordinate differences.
   */
  ghost predicate IsEuclidean(dist: (City, City) -> real, cities: seq<City>) {
    forall a, b :: a in cities && b in cities ==>
      dist(a, b) >= 0.0 && dist(a, b) * dist(a, b) == SquaredDistance(a, b) as real
  }

  /** Two non-negative reals with the same square are equal. */
  lemma SameSquare(u: real, v: real)
    requires u >= 0.0 && v >= 0.0 && u * u == v * v
    ensures u == v
  {
    assert (u - v) * (u + v) == u * u - v * v;
    if u + v != 0.0 {
      assert u - v == 0.0;
    }
  }

  /** The straight-line distance is the same in both directions. */
  lemma EuclideanSymmetric(dist: (City, City) -> real, cities: seq<City>, a: City, b: City)
    requires IsEuclidean(dist, cities) && a in cities && b in cities
    ensures dist(a, b) == dist(b, a)
  {
    assert SquaredDistance(a, b) == SquaredDistance(b, a);
    SameSquare(dist(a, b), dist(b, a));
  }

  /** A city is at distance zero from itself, and from no other city. */
  lemma EuclideanZero(dist: (City, City) -> real, cities: seq<City>, a: City, b: City)
    requires IsEuclidean(dist, cities) && a in cities && b in cities
    ensures dist(a, b) == 0.0 <==> a == b
  {
    var dx, dy := a.x - b.x, a.y - b.y;
    assert SquaredDistance(a, b) == dx * dx + dy * dy;
    if dist(a, b) == 0.0 {
      assert dx * dx + dy * dy == 0;
      assert dx * dx >= 0 && dy * dy >= 0;
    } else if dx == 0 && dy == 0 {
      SameSquare(dist(a, b), 0.0);
    }
  }

  /**
   * The registry of destination cities: a fixed list of cities, and the
   * edge weight the tours are measured with.
   */
  datatype Registry = Registry(cities: seq<City>, dist: (City, City) -> real)
  {
    /** No city is registered twice, and no edge between registered cities has negative weight. */
    ghost predicate Valid() {
      Distinct(cities) && forall a, b :: a in cities && b in cities ==> dist(a, b) >= 0.0
    }

    function NumberOfCities(): nat {
      |cities|
    }

    function GetCity(index: nat): City
      requires index < |cities|
    {
      cities[index]
    }
  }

  /** A Euclidean registry of distinct cities is a valid registry. */
  lemma EuclideanRegistry(r: Registry)
    requires Distinct(r.cities) && IsEuclidean(r.dist, r.cities)
    ensures r.Valid()
  {
  }
}
