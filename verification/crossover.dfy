/**
 * The ordered crossover of `GA.crossover`, stated on rows of slots. The
 * child first takes the first parent's cities at the positions the two cut
 * points choose; then every city of the second parent that the child does
 * not hold yet goes, in the second parent's order, into the leftmost empty
 * slot. `Cross` is that computation; the lemmas below prove that it yields
 * a complete tour when both parents are tours of the same distinct cities,
 * which positions come from the first parent, and in which order the rest
 * come from the second.
 */
module OrderedCrossover {
  import opened Slots

  /**
   * Whether the copy loop takes position `i` from the first parent: strictly
   * between the cut points when `startPos < endPos`; everywhere except
   * strictly between them when `startPos > endPos`; nowhere when they meet.
   */
  predicate Chosen(startPos: nat, endPos: nat, i: nat) {
    if startPos < endPos then startPos < i < endPos
    else if startPos > endPos then !(i < startPos && i > endPos)
    else false
  }

  /** The positions of a row of `n` slots that the copy loop leaves empty. */
  function Unchosen(n: nat, startPos: nat, endPos: nat): seq<bool> {
    seq(n, i requires 0 <= i < n => !Chosen(startPos, endPos, i))
  }

  /** The child after the copy loop: the first parent's chosen slots, empty elsewhere. */
  function Segment<T>(parent1: seq<Option<T>>, startPos: nat, endPos: nat): seq<Option<T>> {
    seq(|parent1|, i requires 0 <= i < |parent1| =>
      if Chosen(startPos, endPos, i) then parent1[i] else None)
  }

  /** The leftmost empty slot of `s`, or `|s|` when every slot is filled. */
  function FirstEmpty<T>(s: seq<Option<T>>): (k: nat)
    ensures k <= |s|
    ensures k < |s| ==> s[k] == None
    ensures forall j :: 0 <= j < k ==> s[j] != None
  {
    if s == [] then 0
    else if s[0].None? then 0
    else 1 + FirstEmpty(s[1..])
  }

  /**
   * One round of the fill loop: a city the child already holds is skipped,
   * any other goes into the leftmost empty slot, if there is one.
   */
  function FillStep<T(==)>(child: seq<Option<T>>, c: Option<T>): seq<Option<T>> {
    if c in child then child
    else
      var k := FirstEmpty(child);
      if k < |child| then child[k := c] else child
  }

  /** The child after the first `i` rounds of the fill loop over `parent2`. */
  function FillPrefix<T(==)>(seg: seq<Option<T>>, parent2: seq<Option<T>>, i: nat): (child: seq<Option<T>>)
    requires i <= |parent2|
    ensures |child| == |seg|
    decreases i
  {
    if i == 0 then seg
    else FillStep(FillPrefix(seg, parent2, i - 1), parent2[i - 1])
  }

  /** The child `GA.crossover` builds from the two parents and the two cut points. */
  function Cross<T(==)>(parent1: seq<Option<T>>, parent2: seq<Option<T>>, startPos: nat, endPos: nat): seq<Option<T>> {
    FillPrefix(Segment(parent1, startPos, endPos), parent2, |parent2|)
  }

  /** The slots of `parent2` that `seg` does not hold, in `parent2`'s order. */
  function Missing<T(==)>(parent2: seq<Option<T>>, seg: seq<Option<T>>): seq<Option<T>>
    decreases |parent2|
  {
    if parent2 == [] then []
    else
      var last := parent2[|parent2| - 1];
      Missing(parent2[..|parent2| - 1], seg) + (if last in seg then [] else [last])
  }

  /** The elements of `s` at the positions where `keep` holds, left to right. */
  function Pick<X>(s: seq<X>, keep: seq<bool>): seq<X>
    requires |s| == |keep|
  {
    if s == [] then []
    else (if keep[0] then [s[0]] else []) + Pick(s[1..], keep[1..])
  }

  // ---------------------------------------------------------------------
  // The child is a complete tour.

  /**
   * A row with one slot per city, whose values are among the cities, and
   * which lacks the city `c`, still has an empty slot for it.
   */
  lemma {:induction false} RoomFor<T>(child: seq<Option<T>>, cities: seq<T>, c: T)
    requires |child| == |cities|
    requires multiset(Values(child)) <= multiset(cities)
    requires c in cities && Some(c) !in child
    ensures FirstEmpty(child) < |child|
    ensures multiset(Values(child)) + multiset{c} <= multiset(cities)
  {
    ValuesCount(child, c);
    assert multiset(Values(child)) + multiset{c} <= multiset(cities);
    SubMultisetSize(multiset(Values(child)) + multiset{c}, multiset(cities));
    ValuesLength(child);
    assert None in child;
  }

  /** One round of the fill loop with a registered city keeps the child within the registry's cities. */
  lemma {:induction false} StepKeepsCities<T>(child: seq<Option<T>>, cities: seq<T>, x: Option<T>)
    requires |child| == |cities| && multiset(Values(child)) <= multiset(cities)
    requires x.Some? && x.value in cities
    ensures multiset(Values(FillStep(child, x))) <= multiset(cities)
  {
    if x !in child {
      RoomFor(child, cities, x.value);
      FillSlot(child, FirstEmpty(child), x.value);
    }
  }

  /** During the fill loop the child never holds a city more often than the registry does. */
  lemma {:induction false} FillKeepsCities<T>(seg: seq<Option<T>>, parent2: seq<Option<T>>, cities: seq<T>, i: nat)
    requires |seg| == |cities| && i <= |parent2|
    requires multiset(Values(seg)) <= multiset(cities)
    requires Within(parent2, cities)
    ensures multiset(Values(FillPrefix(seg, parent2, i))) <= multiset(cities)
  {
    if i > 0 {
      FillKeepsCities(seg, parent2, cities, i - 1);
      StepKeepsCities(FillPrefix(seg, parent2, i - 1), cities, parent2[i - 1]);
    }
  }

  /** When both parents are tours, a city the fill loop has to place always finds an empty slot. */
  lemma {:induction false} HasRoom<T>(seg: seq<Option<T>>, parent2: seq<Option<T>>, cities: seq<T>, i: nat)
    requires |seg| == |cities| && i < |parent2|
    requires multiset(Values(seg)) <= multiset(cities)
    requires Within(parent2, cities)
    ensures parent2[i] != None
    ensures parent2[i] !in FillPrefix(seg, parent2, i) ==> FirstEmpty(FillPrefix(seg, parent2, i)) < |seg|
  {
    var child := FillPrefix(seg, parent2, i);
    var x := parent2[i];
    if x !in child {
      FillKeepsCities(seg, parent2, cities, i);
      RoomFor(child, cities, x.value);
    }
  }

  /** Once the fill loop has processed a city of `parent2`, the child holds it. */
  lemma {:induction false} FillKeepsProcessed<T>(seg: seq<Option<T>>, parent2: seq<Option<T>>, cities: seq<T>, i: nat, j: nat)
    requires |seg| == |cities| && j < i <= |parent2|
    requires multiset(Values(seg)) <= multiset(cities)
    requires Within(parent2, cities)
    ensures parent2[j] in FillPrefix(seg, parent2, i)
  {
    var child := FillPrefix(seg, parent2, i - 1);
    HasRoom(seg, parent2, cities, i - 1);
    if j < i - 1 {
      FillKeepsProcessed(seg, parent2, cities, i - 1, j);
      HasRoom(seg, parent2, cities, j);
      StepKeeps(child, parent2[i - 1], parent2[j]);
    } else {
      StepHolds(child, parent2[i - 1]);
    }
  }

  /** A round of the fill loop keeps every city the child already holds. */
  lemma StepKeeps<T>(child: seq<Option<T>>, c: Option<T>, y: Option<T>)
    requires y != None && y in child
    ensures y in FillStep(child, c)
  {
    var k := FirstEmpty(child);
    if c !in child && k < |child| {
      var l :| 0 <= l < |child| && child[l] == y;
      assert child[k := c][l] == y;
    }
  }

  /** A round of the fill loop with room to spare leaves the child holding its city. */
  lemma StepHolds<T>(child: seq<Option<T>>, c: Option<T>)
    requires c !in child ==> FirstEmpty(child) < |child|
    ensures c in FillStep(child, c)
  {
    if c !in child {
      assert child[FirstEmpty(child) := c][FirstEmpty(child)] == c;
    }
  }

  /**
   * Ordered crossover of two complete tours of the same distinct cities is
   * a complete tour of those cities: no slot stays empty and no city is
   * repeated or lost, whatever the cut points.
   */
  lemma CrossoverIsTour<T>(parent1: seq<Option<T>>, parent2: seq<Option<T>>, cities: seq<T>, startPos: nat, endPos: nat)
    requires Distinct(cities) && IsTourOf(parent1, cities) && IsTourOf(parent2, cities)
    ensures IsTourOf(Cross(parent1, parent2, startPos, endPos), cities)
  {
    var seg := Segment(parent1, startPos, endPos);
    TourVisitsEachOnce(parent1, cities);
    EmptiedWithin(seg, parent1);
    TourWithin(parent2, cities);
    FillKeepsCities(seg, parent2, cities, |parent2|);
    var child := Cross(parent1, parent2, startPos, endPos);
    forall c ensures multiset(Values(child))[c] == multiset(cities)[c] {
      ValuesCount(child, c);
      ValuesCount(parent2, c);
      DistinctCounts(cities, c);
      if c in cities {
        var j :| 0 <= j < |parent2| && parent2[j] == Some(c);
        FillKeepsProcessed(seg, parent2, cities, |parent2|, j);
      }
    }
    PointwiseEqual(multiset(Values(child)), multiset(cities));
    ValuesLength(child);
  }

  // ---------------------------------------------------------------------
  // The copy rule.

  /** The fill loop only ever writes into slots that were empty after the copy loop. */
  lemma {:induction false} FillKeepsFilled<T>(seg: seq<Option<T>>, parent2: seq<Option<T>>, i: nat, j: nat)
    requires i <= |parent2| && j < |seg| && seg[j] != None
    ensures FillPrefix(seg, parent2, i)[j] == seg[j]
  {
    if i > 0 {
      FillKeepsFilled(seg, parent2, i - 1, j);
    }
  }

  /** The positions the fill loop leaves alone still hold the segment. */
  lemma {:induction false} FillKeepsSegment<T>(seg: seq<Option<T>>, parent2: seq<Option<T>>, keep: seq<bool>, i: nat)
    requires |seg| == |keep| && i <= |parent2|
    requires forall j :: 0 <= j < |seg| ==> (keep[j] <==> seg[j] == None)
    ensures forall j :: 0 <= j < |seg| && !keep[j] ==> FillPrefix(seg, parent2, i)[j] == seg[j]
  {
    forall j | 0 <= j < |seg| && !keep[j] ensures FillPrefix(seg, parent2, i)[j] == seg[j] {
      FillKeepsFilled(seg, parent2, i, j);
    }
  }

  /**
   * Where the cut rule chooses a position, the child holds the first
   * parent's city at that same position.
   */
  lemma CrossoverCopiesChosen<T>(parent1: seq<Option<T>>, parent2: seq<Option<T>>, startPos: nat, endPos: nat)
    requires None !in parent1
    ensures |Cross(parent1, parent2, startPos, endPos)| == |parent1|
    ensures forall i :: 0 <= i < |parent1| && Chosen(startPos, endPos, i) ==>
      Cross(parent1, parent2, startPos, endPos)[i] == parent1[i]
  {
    var seg := Segment(parent1, startPos, endPos);
    forall i | 0 <= i < |parent1| && Chosen(startPos, endPos, i)
      ensures Cross(parent1, parent2, startPos, endPos)[i] == parent1[i]
    {
      assert parent1[i] != None;
      FillKeepsFilled(seg, parent2, |parent2|, i);
    }
  }

  // ---------------------------------------------------------------------
  // The fill rule.

  /** A kept element appears in the picked subsequence. */
  lemma {:induction false} PickHas<X>(s: seq<X>, keep: seq<bool>, j: nat)
    requires |s| == |keep| && j < |s| && keep[j]
    ensures s[j] in Pick(s, keep)
  {
    if j > 0 {
      PickHas(s[1..], keep[1..], j - 1);
    }
  }

  /** Every element of the picked subsequence is kept from some position. */
  lemma {:induction false} PickFrom<X>(s: seq<X>, keep: seq<bool>, x: X)
    requires |s| == |keep| && x in Pick(s, keep)
    ensures exists j :: 0 <= j < |s| && keep[j] && s[j] == x
  {
    if !(keep[0] && s[0] == x) {
      PickFrom(s[1..], keep[1..], x);
      var j :| 0 <= j < |s| - 1 && keep[1..][j] && s[1..][j] == x;
      assert keep[j + 1] && s[j + 1] == x;
    }
  }

  /** Updating slot `k + 1` of `[a] + rest` updates slot `k` of `rest`. */
  lemma ConsUpdate<X>(a: X, rest: seq<X>, k: nat, x: X)
    requires k < |rest|
    ensures ([a] + rest)[k + 1 := x] == [a] + rest[k := x]
  {
  }

  /** Behind a filled slot, the leftmost empty slot moves one place right. */
  lemma {:induction false} ConsFirstEmpty<T>(a: Option<T>, rest: seq<Option<T>>)
    requires a != None
    ensures FirstEmpty([a] + rest) == 1 + FirstEmpty(rest)
  {
    assert ([a] + rest)[1..] == rest;
  }

  /**
   * When every dropped position is filled, the leftmost empty slot of the
   * row is a kept one, and filling it fills the leftmost empty slot of the
   * picked subsequence.
   */
  lemma {:induction false} PickPlace<T>(s: seq<Option<T>>, keep: seq<bool>, x: Option<T>)
    requires |s| == |keep|
    requires forall j :: 0 <= j < |s| && !keep[j] ==> s[j] != None
    requires FirstEmpty(s) < |s|
    ensures keep[FirstEmpty(s)]
    ensures FirstEmpty(Pick(s, keep)) < |Pick(s, keep)|
    ensures Pick(s[FirstEmpty(s) := x], keep) == Pick(s, keep)[FirstEmpty(Pick(s, keep)) := x]
  {
    if s[0].None? {
      assert s[0 := x] == [x] + s[1..];
    } else {
      PickPlace(s[1..], keep[1..], x);
      PickPlaceBehind(s, keep, x, s[1..], Pick(s[1..], keep[1..]));
    }
  }

  /** `PickPlace` for a row whose first slot is filled, given it for the rest of the row. */
  lemma PickPlaceBehind<T>(s: seq<Option<T>>, keep: seq<bool>, x: Option<T>, tail: seq<Option<T>>, rest: seq<Option<T>>)
    requires |s| == |keep| && |s| > 0 && s[0] != None && tail == s[1..] && rest == Pick(tail, keep[1..])
    requires FirstEmpty(tail) < |tail| && keep[1..][FirstEmpty(tail)]
    requires FirstEmpty(rest) < |rest|
    requires Pick(tail[FirstEmpty(tail) := x], keep[1..]) == rest[FirstEmpty(rest) := x]
    ensures FirstEmpty(s) < |s| && keep[FirstEmpty(s)]
    ensures FirstEmpty(Pick(s, keep)) < |Pick(s, keep)|
    ensures Pick(s[FirstEmpty(s) := x], keep) == Pick(s, keep)[FirstEmpty(Pick(s, keep)) := x]
  {
    assert [s[0]] + tail == s;
    ConsFirstEmpty(s[0], tail);
    ConsUpdate(s[0], tail, FirstEmpty(tail), x);
    assert ([s[0]] + tail[FirstEmpty(tail) := x])[1..] == tail[FirstEmpty(tail) := x];
    if keep[0] {
      assert Pick(s, keep) == [s[0]] + rest;
      ConsFirstEmpty(s[0], rest);
      ConsUpdate(s[0], rest, FirstEmpty(rest), x);
    } else {
      assert Pick(s, keep) == rest;
    }
  }

  /** The elements of `Missing(parent2, seg)` are slots of `parent2` that `seg` lacks. */
  lemma {:induction false} MissingFrom<T>(parent2: seq<Option<T>>, seg: seq<Option<T>>, x: Option<T>)
    requires x in Missing(parent2, seg)
    ensures x in parent2 && x !in seg
  {
    var front := parent2[..|parent2| - 1];
    if x in Missing(front, seg) {
      MissingFrom(front, seg, x);
    }
  }

  /** Extending the second parent by one slot extends `Missing` by that slot unless the segment holds it. */
  lemma {:induction false} MissingStep<T>(parent2: seq<Option<T>>, seg: seq<Option<T>>, i: nat)
    requires 0 < i <= |parent2|
    ensures Missing(parent2[..i], seg) ==
      Missing(parent2[..i - 1], seg) + (if parent2[i - 1] in seg then [] else [parent2[i - 1]])
  {
    assert parent2[..i][..i - 1] == parent2[..i - 1];
  }

  /**
   * `Missing` over a prefix of a row without empty or repeated slots holds no
   * empty slot and not the slot that follows the prefix.
   */
  lemma {:induction false} MissingPrefix<T>(parent2: seq<Option<T>>, seg: seq<Option<T>>, i: nat)
    requires i < |parent2| && None !in parent2 && Distinct(parent2)
    ensures None !in Missing(parent2[..i], seg)
    ensures parent2[i] !in Missing(parent2[..i], seg)
  {
    var m := Missing(parent2[..i], seg);
    if None in m {
      MissingFrom(parent2[..i], seg, None);
    }
    if parent2[i] in m {
      MissingFrom(parent2[..i], seg, parent2[i]);
    }
  }

  /**
   * A slot the child already holds, but which is not among the picked
   * positions' contents, sits at a dropped position.
   */
  lemma {:induction false} HeldAtDropped<T>(child: seq<Option<T>>, keep: seq<bool>, m: seq<Option<T>>, h: nat, x: Option<T>)
    requires |child| == |keep| && |m| <= h
    requires Pick(child, keep) == m + Nones(h - |m|)
    requires x != None && x !in m && x in child
    ensures exists j :: 0 <= j < |child| && !keep[j] && child[j] == x
  {
    var j :| 0 <= j < |child| && child[j] == x;
    if keep[j] {
      PickHas(child, keep, j);
    }
  }

  /**
   * Placing a slot into the leftmost empty slot of the child, when every
   * dropped position is filled, appends it to the picked contents.
   */
  lemma PlaceAppends<T>(child: seq<Option<T>>, keep: seq<bool>, m: seq<Option<T>>, h: nat, x: Option<T>)
    requires |child| == |keep| && |m| <= h
    requires forall j :: 0 <= j < |child| && !keep[j] ==> child[j] != None
    requires FirstEmpty(child) < |child|
    requires None !in m
    requires Pick(child, keep) == m + Nones(h - |m|)
    ensures |m| < h
    ensures Pick(child[FirstEmpty(child) := x], keep) == m + [x] + Nones(h - |m| - 1)
  {
    PickPlace(child, keep, x);
    var row := m + Nones(h - |m|);
    var r := FirstEmpty(row);
    assert row[|m|] == None;
    assert row[|m| := x] == m + [x] + Nones(h - |m| - 1);
  }

  /**
   * A round of the fill loop that meets a city the child already holds
   * changes neither the child nor the list of cities still missing.
   */
  lemma FillSkip<T>(seg: seq<Option<T>>, parent2: seq<Option<T>>, keep: seq<bool>, h: nat, i: nat,
                    child: seq<Option<T>>, m: seq<Option<T>>)
    requires |seg| == |keep| && 0 < i <= |parent2|
    requires child == FillPrefix(seg, parent2, i - 1) && m == Missing(parent2[..i - 1], seg)
    requires forall j :: 0 <= j < |seg| ==> (keep[j] <==> seg[j] == None)
    requires forall j :: 0 <= j < |seg| && !keep[j] ==> child[j] == seg[j]
    requires None !in m && parent2[i - 1] !in m
    requires parent2[i - 1] != None && parent2[i - 1] in child
    requires |m| <= h && Pick(child, keep) == m + Nones(h - |m|)
    ensures FillPrefix(seg, parent2, i) == child
    ensures Missing(parent2[..i], seg) == m
  {
    var x := parent2[i - 1];
    MissingStep(parent2, seg, i);
    HeldAtDropped(child, keep, m, h, x);
    var j :| 0 <= j < |child| && !keep[j] && child[j] == x;
    assert x == seg[j];
  }

  /**
   * A round of the fill loop that meets a city the child lacks puts it in
   * the leftmost empty slot, which appends it to the cities still missing.
   */
  lemma FillPlace<T>(seg: seq<Option<T>>, parent2: seq<Option<T>>, keep: seq<bool>, h: nat, i: nat,
                     child: seq<Option<T>>, m: seq<Option<T>>)
    requires |seg| == |keep| && 0 < i <= |parent2|
    requires child == FillPrefix(seg, parent2, i - 1) && m == Missing(parent2[..i - 1], seg)
    requires forall j :: 0 <= j < |seg| ==> (keep[j] <==> seg[j] == None)
    requires forall j :: 0 <= j < |seg| && !keep[j] ==> child[j] == seg[j]
    requires None !in m
    requires parent2[i - 1] != None && parent2[i - 1] !in child
    requires FirstEmpty(child) < |seg|
    requires |m| <= h && Pick(child, keep) == m + Nones(h - |m|)
    ensures Missing(parent2[..i], seg) == m + [parent2[i - 1]]
    ensures |m| + 1 <= h
    ensures Pick(FillPrefix(seg, parent2, i), keep) == m + [parent2[i - 1]] + Nones(h - |m| - 1)
  {
    var x := parent2[i - 1];
    MissingStep(parent2, seg, i);
    assert x !in seg;
    PlaceAppends(child, keep, m, h, x);
    assert FillPrefix(seg, parent2, i) == child[FirstEmpty(child) := x];
  }

  /**
   * The invariant of the fill loop, read on the positions the copy loop
   * left empty: after `i` rounds they hold the cities of `parent2[..i]` that
   * the segment lacks, in `parent2`'s order, followed by empty slots; the
   * chosen positions still hold the segment.
   */
  lemma {:induction false} FillOrder<T>(seg: seq<Option<T>>, parent2: seq<Option<T>>, cities: seq<T>, keep: seq<bool>, i: nat)
    requires |seg| == |cities| == |keep| && i <= |parent2|
    requires forall j :: 0 <= j < |seg| ==> (keep[j] <==> seg[j] == None)
    requires multiset(Values(seg)) <= multiset(cities)
    requires Distinct(cities) && IsTourOf(parent2, cities)
    ensures forall j :: 0 <= j < |seg| && !keep[j] ==> FillPrefix(seg, parent2, i)[j] == seg[j]
    ensures |Missing(parent2[..i], seg)| <= |Pick(seg, keep)|
    ensures Pick(FillPrefix(seg, parent2, i), keep) ==
      Missing(parent2[..i], seg) + Nones(|Pick(seg, keep)| - |Missing(parent2[..i], seg)|)
  {
    FillKeepsSegment(seg, parent2, keep, i);
    if i == 0 {
      PickedEmpty(seg, keep);
    } else {
      FillOrder(seg, parent2, cities, keep, i - 1);
      FillOrderStep(seg, parent2, cities, keep, i);
    }
  }

  /** One round of the fill loop keeps the invariant of `FillOrder`. */
  lemma FillOrderStep<T>(seg: seq<Option<T>>, parent2: seq<Option<T>>, cities: seq<T>, keep: seq<bool>, i: nat)
    requires |seg| == |cities| == |keep| && 0 < i <= |parent2|
    requires forall j :: 0 <= j < |seg| ==> (keep[j] <==> seg[j] == None)
    requires multiset(Values(seg)) <= multiset(cities)
    requires Distinct(cities) && IsTourOf(parent2, cities)
    requires forall j :: 0 <= j < |seg| && !keep[j] ==> FillPrefix(seg, parent2, i - 1)[j] == seg[j]
    requires |Missing(parent2[..i - 1], seg)| <= |Pick(seg, keep)|
    requires Pick(FillPrefix(seg, parent2, i - 1), keep) ==
      Missing(parent2[..i - 1], seg) + Nones(|Pick(seg, keep)| - |Missing(parent2[..i - 1], seg)|)
    ensures |Missing(parent2[..i], seg)| <= |Pick(seg, keep)|
    ensures Pick(FillPrefix(seg, parent2, i), keep) ==
      Missing(parent2[..i], seg) + Nones(|Pick(seg, keep)| - |Missing(parent2[..i], seg)|)
  {
    var h := |Pick(seg, keep)|;
    var child, m := FillPrefix(seg, parent2, i - 1), Missing(parent2[..i - 1], seg);
    TourVisitsEachOnce(parent2, cities);
    MissingPrefix(parent2, seg, i - 1);
    if parent2[i - 1] in child {
      FillSkip(seg, parent2, keep, h, i, child, m);
    } else {
      HasRoom(seg, parent2, cities, i - 1);
      FillPlace(seg, parent2, keep, h, i, child, m);
    }
  }

  /** Before the fill loop, every picked position of the segment is empty. */
  lemma {:induction false} PickedEmpty<T>(seg: seq<Option<T>>, keep: seq<bool>)
    requires |seg| == |keep|
    requires forall j :: 0 <= j < |seg| ==> (keep[j] <==> seg[j] == None)
    ensures Pick(seg, keep) == Nones(|Pick(seg, keep)|)
  {
    var h := |Pick(seg, keep)|;
    forall j | 0 <= j < h ensures Pick(seg, keep)[j] == None {
      PickFrom(seg, keep, Pick(seg, keep)[j]);
    }
  }

  /** After the whole fill loop, the invariant of `FillOrder` speaks of all of `parent2`. */
  lemma {:induction false} FillComplete<T>(seg: seq<Option<T>>, parent2: seq<Option<T>>, cities: seq<T>, keep: seq<bool>)
    requires |seg| == |cities| == |keep|
    requires forall j :: 0 <= j < |seg| ==> (keep[j] <==> seg[j] == None)
    requires multiset(Values(seg)) <= multiset(cities)
    requires Distinct(cities) && IsTourOf(parent2, cities)
    ensures |Missing(parent2, seg)| <= |Pick(seg, keep)|
    ensures Pick(FillPrefix(seg, parent2, |parent2|), keep) ==
      Missing(parent2, seg) + Nones(|Pick(seg, keep)| - |Missing(parent2, seg)|)
  {
    FillOrder(seg, parent2, cities, keep, |parent2|);
    WholePrefix(parent2);
  }

  /** When the filled child is a complete tour, no picked position is left empty. */
  lemma {:induction false} FilledInOrder<T>(seg: seq<Option<T>>, parent2: seq<Option<T>>, cities: seq<T>, keep: seq<bool>)
    requires |seg| == |cities| == |keep|
    requires forall j :: 0 <= j < |seg| ==> (keep[j] <==> seg[j] == None)
    requires multiset(Values(seg)) <= multiset(cities)
    requires Distinct(cities) && IsTourOf(parent2, cities)
    requires None !in FillPrefix(seg, parent2, |parent2|)
    ensures Pick(FillPrefix(seg, parent2, |parent2|), keep) == Missing(parent2, seg)
  {
    FillComplete(seg, parent2, cities, keep);
    NoEmptyPicked(FillPrefix(seg, parent2, |parent2|), keep, Missing(parent2, seg), |Pick(seg, keep)|);
  }

  /** The prefix of a sequence up to its length is the whole sequence. */
  lemma WholePrefix<X>(s: seq<X>)
    ensures s[..|s|] == s
  {
  }

  /** A row without empty slots has no empty slot among its picked positions either. */
  lemma {:induction false} NoEmptyPicked<T>(child: seq<Option<T>>, keep: seq<bool>, m: seq<Option<T>>, h: nat)
    requires |child| == |keep| && None !in child && |m| <= h
    requires Pick(child, keep) == m + Nones(h - |m|)
    ensures Pick(child, keep) == m
  {
    if |m| < h {
      var picked := Pick(child, keep);
      assert picked[|m|] == None;
      PickFrom(child, keep, None);
    }
    assert m + Nones(h - |m|) == m;
  }

  /**
   * The fill rule: read left to right, the positions the cut rule does not
   * choose hold exactly the cities of the second parent that the copied
   * segment lacks, in the second parent's order.
   */
  lemma {:induction false} CrossoverFillsInOrder<T>(parent1: seq<Option<T>>, parent2: seq<Option<T>>, cities: seq<T>, startPos: nat, endPos: nat)
    requires Distinct(cities) && IsTourOf(parent1, cities) && IsTourOf(parent2, cities)
    ensures |Cross(parent1, parent2, startPos, endPos)| == |parent1|
    ensures Pick(Cross(parent1, parent2, startPos, endPos), Unchosen(|parent1|, startPos, endPos)) ==
      Missing(parent2, Segment(parent1, startPos, endPos))
  {
    var seg := Segment(parent1, startPos, endPos);
    var keep := Unchosen(|parent1|, startPos, endPos);
    TourVisitsEachOnce(parent1, cities);
    EmptiedWithin(seg, parent1);
    forall j | 0 <= j < |seg| ensures keep[j] <==> seg[j] == None {
      assert parent1[j] in parent1;
    }
    CrossoverIsTour(parent1, parent2, cities, startPos, endPos);
    FilledInOrder(seg, parent2, cities, keep);
  }

  /**
   * Equal cut points copy nothing, so the child is the second parent itself,
   * provided the second parent has no empty and no repeated slot.
   */
  lemma EqualCutsGiveParent2<T>(parent1: seq<Option<T>>, parent2: seq<Option<T>>, cut: nat)
    requires |parent1| == |parent2| && None !in parent2 && Distinct(parent2)
    ensures Cross(parent1, parent2, cut, cut) == parent2
  {
    var n := |parent2|;
    assert Segment(parent1, cut, cut) == Nones(n);
    EqualCutsFill(parent2, n);
    assert parent2[..n] == parent2;
  }

  /** Filling an empty row from a repetition-free `parent2` copies it slot by slot. */
  lemma {:induction false} EqualCutsFill<T>(parent2: seq<Option<T>>, i: nat)
    requires i <= |parent2| && None !in parent2 && Distinct(parent2)
    ensures FillPrefix(Nones(|parent2|), parent2, i) == parent2[..i] + Nones(|parent2| - i)
  {
    if i > 0 {
      EqualCutsFill(parent2, i - 1);
      var n := |parent2|;
      var child := parent2[..i - 1] + Nones(n - (i - 1));
      var x := parent2[i - 1];
      assert x !in child;
      assert child[i - 1] == None;
      assert FirstEmpty(child) == i - 1;
      assert child[i - 1 := x] == parent2[..i] + Nones(n - i);
    }
  }
}
