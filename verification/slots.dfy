/**
 * Rows of slots. A tour is a fixed-length row of city slots in which an
 * empty slot holds `None`, as a freshly built tour does before it is
 * filled. This module says when such a row is a complete tour of a list of
 * cities, and collects the counting facts the operators' proofs share.
 */
module Slots {

  datatype Option<+T> = None | Some(value: T)

  /** No element occurs twice. */
  predicate Distinct<T(==)>(s: seq<T>) {
    forall i, j :: 0 <= i < j < |s| ==> s[i] != s[j]
  }

  /** A row of `m` empty slots. */
  function Nones<T>(m: nat): seq<Option<T>> {
    seq(m, _ => None)
  }

  /** The cities held by the filled slots of `s`, left to right. */
  function Values<T>(s: seq<Option<T>>): seq<T> {
    if s == [] then []
    else (if s[0].Some? then [s[0].value] else []) + Values(s[1..])
  }

  /** Every slot of `s` is filled with one of `cities`. */
  ghost predicate Within<T>(s: seq<Option<T>>, cities: seq<T>) {
    forall i :: 0 <= i < |s| ==> s[i].Some? && s[i].value in cities
  }

  /**
   * `s` is a complete tour of `cities`: no slot is empty, and the slots hold
   * exactly the cities of the list, each as often as the list holds it.
   */
  ghost predicate IsTourOf<T>(s: seq<Option<T>>, cities: seq<T>) {
    None !in s && multiset(Values(s)) == multiset(cities)
  }

  /** A city occurs among the values as often as its filled slot occurs in the row. */
  lemma {:induction false} ValuesCount<T>(s: seq<Option<T>>, c: T)
    ensures multiset(Values(s))[c] == multiset(s)[Some(c)]
  {
    if s != [] {
      ValuesCount(s[1..], c);
      assert s == [s[0]] + s[1..];
    }
  }

  /** Every slot is either filled (and contributes a value) or empty. */
  lemma {:induction false} ValuesLength<T>(s: seq<Option<T>>)
    ensures |Values(s)| + multiset(s)[None] == |s|
  {
    if s != [] {
      ValuesLength(s[1..]);
      assert s == [s[0]] + s[1..];
    }
  }

  /** In a row without empty slots, the values are the slots' contents position by position. */
  lemma {:induction false} ValuesOfFull<T>(s: seq<Option<T>>)
    requires None !in s
    ensures |Values(s)| == |s|
    ensures forall i :: 0 <= i < |s| ==> Values(s)[i] == s[i].value
  {
    if s != [] {
      ValuesOfFull(s[1..]);
    }
  }

  /** Rearranging the slots of a row rearranges its values. */
  lemma {:induction false} SameSlotsSameValues<T>(s: seq<Option<T>>, t: seq<Option<T>>)
    requires multiset(s) == multiset(t)
    ensures multiset(Values(s)) == multiset(Values(t))
  {
    forall c ensures multiset(Values(s))[c] == multiset(Values(t))[c] {
      ValuesCount(s, c);
      ValuesCount(t, c);
    }
    PointwiseEqual(multiset(Values(s)), multiset(Values(t)));
  }

  /** A rearrangement of a complete tour is a complete tour of the same cities. */
  lemma RearrangedTour<T>(s: seq<Option<T>>, t: seq<Option<T>>, cities: seq<T>)
    requires IsTourOf(s, cities) && multiset(t) == multiset(s)
    ensures IsTourOf(t, cities)
  {
    SameSlotsSameValues(s, t);
    assert multiset(t)[None] == multiset(s)[None];
  }

  /** Filling the empty slot `k` with `c` adds exactly one `c` to the values. */
  lemma FillSlot<T>(s: seq<Option<T>>, k: nat, c: T)
    requires k < |s| && s[k] == None
    ensures multiset(Values(s[k := Some(c)])) == multiset(Values(s)) + multiset{c}
  {
    forall d ensures multiset(Values(s[k := Some(c)]))[d] == (multiset(Values(s)) + multiset{c})[d] {
      ValuesCount(s, d);
      ValuesCount(s[k := Some(c)], d);
    }
    PointwiseEqual(multiset(Values(s[k := Some(c)])), multiset(Values(s)) + multiset{c});
  }

  /** Emptying some slots of `s` leaves values drawn from those of `s`. */
  lemma {:induction false} EmptiedWithin<T>(c: seq<Option<T>>, s: seq<Option<T>>)
    requires |c| == |s|
    requires forall i :: 0 <= i < |s| ==> c[i] == None || c[i] == s[i]
    ensures multiset(Values(c)) <= multiset(Values(s))
  {
    if s != [] {
      EmptiedWithin(c[1..], s[1..]);
    }
  }

  /** Multisets that count every element alike are equal. */
  lemma PointwiseEqual<T>(a: multiset<T>, b: multiset<T>)
    requires forall x :: a[x] == b[x]
    ensures a == b
  {
  }

  /** A sub-multiset is no larger, and one of the same size is the whole. */
  lemma SubMultisetSize<T>(a: multiset<T>, b: multiset<T>)
    requires a <= b
    ensures |a| <= |b|
    ensures |a| == |b| ==> a == b
  {
    var rest := b - a;
    assert b == a + rest;
    if |a| == |b| {
      assert rest == multiset{};
    }
  }

  /** Appending an element the sequence lacks keeps it free of repeats. */
  lemma DistinctAppend<T>(s: seq<T>, x: T)
    requires Distinct(s) && x !in s
    ensures Distinct(s + [x])
  {
  }

  /**
   * Writing `x` into slot `i` of a sequence whose slots `from .. i - 1`
   * were replaced by `made` extends the replaced stretch by one slot.
   */
  lemma Placed<T>(start: seq<T>, made: seq<T>, from: nat, i: nat, x: T)
    requires from <= i < |start| && |made| == i - from
    ensures (start[..from] + made + start[i..])[i := x] == start[..from] + (made + [x]) + start[i + 1..]
  {
  }

  /**
   * Taking the first `k` entries from `done` and the rest from `rest`, and
   * then entry `k` from `done` too, takes the first `k + 1` from `done`.
   */
  lemma Overwritten<T>(done: seq<T>, rest: seq<T>, k: nat)
    requires |done| == |rest| && k <= |done|
    ensures k < |done| ==> (done[..k] + rest[k..])[k := done[k]] == done[..k + 1] + rest[k + 1..]
    ensures k == |done| ==> done[..k] + rest[k..] == done
  {
  }

  /** A sequence that agrees with `head` on its first slots and with `tail` on the rest is `head + tail`. */
  lemma Spliced<T>(head: seq<T>, tail: seq<T>, whole: seq<T>)
    requires |whole| == |head| + |tail|
    requires forall i :: 0 <= i < |head| ==> whole[i] == head[i]
    requires forall j :: 0 <= j < |tail| ==> whole[|head| + j] == tail[j]
    ensures head + tail == whole
  {
    forall i | |head| <= i < |whole| ensures (head + tail)[i] == whole[i] {
      assert whole[|head| + (i - |head|)] == tail[i - |head|];
    }
  }

  /** In a list without repetition every element occurs once. */
  lemma {:induction false} DistinctCounts<T>(s: seq<T>, x: T)
    requires Distinct(s)
    ensures multiset(s)[x] == if x in s then 1 else 0
  {
    if s != [] {
      DistinctCounts(s[1..], x);
      assert s == [s[0]] + s[1..];
    }
  }

  /**
   * Two lists without repetition, of the same length, the first of whose
   * elements all occur in the second, are rearrangements of each other.
   */
  lemma DistinctSameLength<T>(a: seq<T>, b: seq<T>)
    requires Distinct(a) && Distinct(b) && |a| == |b|
    requires forall i :: 0 <= i < |a| ==> a[i] in b
    ensures multiset(a) == multiset(b)
  {
    forall x ensures multiset(a)[x] <= multiset(b)[x] {
      DistinctCounts(a, x);
      DistinctCounts(b, x);
    }
    SubMultisetSize(multiset(a), multiset(b));
  }

  /** A row in which one value fills two slots counts that value twice. */
  lemma Repeated<T>(s: seq<T>, i: nat, j: nat)
    requires i < j < |s| && s[i] == s[j]
    ensures multiset(s)[s[i]] >= 2
  {
    assert s == s[..j] + s[j..];
    assert s[i] in s[..j];
    assert s[j] in s[j..];
  }

  /** Every slot of a complete tour holds one of the cities. */
  lemma TourWithin<T>(s: seq<Option<T>>, cities: seq<T>)
    requires IsTourOf(s, cities)
    ensures Within(s, cities)
  {
    forall i | 0 <= i < |s| ensures s[i].Some? && s[i].value in cities {
      ValuesCount(s, s[i].value);
      assert s[i].value in multiset(cities);
    }
  }

  /**
   * A complete tour of a list of distinct cities visits each of them exactly
   * once and nothing else: it has one slot per city, no slot repeats another,
   * and a city is in the list exactly when some slot holds it.
   */
  lemma TourVisitsEachOnce<T>(s: seq<Option<T>>, cities: seq<T>)
    requires Distinct(cities) && IsTourOf(s, cities)
    ensures |s| == |cities|
    ensures Distinct(s)
    ensures forall c :: c in cities <==> Some(c) in s
  {
    ValuesLength(s);
    assert |multiset(Values(s))| == |multiset(cities)|;
    forall c ensures c in cities <==> Some(c) in s {
      ValuesCount(s, c);
      assert c in cities <==> c in multiset(cities);
    }
    forall i, j | 0 <= i < j < |s| ensures s[i] != s[j] {
      if s[i] == s[j] {
        Repeated(s, i, j);
        ValuesCount(s, s[i].value);
        DistinctCounts(cities, s[i].value);
        assert false;
      }
    }
  }
}
