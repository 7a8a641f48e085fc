/**
 * The swap mutation of `GA.mutate`, stated on rows of slots. Each position
 * in turn draws a number; when it falls below the mutation rate, a second
 * position is drawn and the two slots trade places. The draws are
 * parameters: `rolls[k]` is the number drawn at position `k` and `picks[k]`
 * the partner position drawn when that roll fires.
 */
module Mutation {
  import opened Slots

  /** The draws for a row of `n` slots: one roll and one partner position per slot. */
  predicate Draws(rolls: seq<real>, picks: seq<nat>, n: nat) {
    |rolls| == n && |picks| == n && forall k :: 0 <= k < n ==> picks[k] < n
  }

  /**
   * Writing the city of slot `i` into slot `j` and then the old city of
   * slot `j` into slot `i`: the two slots trade places, all others stay.
   */
  function Swap<X>(s: seq<X>, i: nat, j: nat): (r: seq<X>)
    requires i < |s| && j < |s|
    ensures |r| == |s|
  {
    s[j := s[i]][i := s[j]]
  }

  /** No city is gained or lost by a swap. */
  lemma SwapPermutes<X>(s: seq<X>, i: nat, j: nat)
    requires i < |s| && j < |s|
    ensures multiset(Swap(s, i, j)) == multiset(s)
  {
    var t := s[j := s[i]];
    assert multiset(t) == multiset(s) - multiset{s[j]} + multiset{s[i]};
    assert multiset(t[i := s[j]]) == multiset(t) - multiset{t[i]} + multiset{s[j]};
  }

  /** The two slots trade places, every other slot stays, and no city is gained or lost. */
  lemma SwapExchanges<X>(s: seq<X>, i: nat, j: nat)
    requires i < |s| && j < |s|
    ensures Swap(s, i, j)[i] == s[j] && Swap(s, i, j)[j] == s[i]
    ensures forall k :: 0 <= k < |s| && k != i && k != j ==> Swap(s, i, j)[k] == s[k]
    ensures multiset(Swap(s, i, j)) == multiset(s)
  {
    SwapPermutes(s, i, j);
  }

  /** Swapping a slot with itself changes nothing. */
  lemma SwapSelf<X>(s: seq<X>, i: nat)
    requires i < |s|
    ensures Swap(s, i, i) == s
  {
    var r := Swap(s, i, i);
    assert forall k :: 0 <= k < |s| ==> r[k] == s[k];
  }

  /** Whether each position swaps: its roll falls below the rate. */
  function Firing(rate: real, rolls: seq<real>): (f: seq<bool>)
    ensures |f| == |rolls|
  {
    seq(|rolls|, k requires 0 <= k < |rolls| => rolls[k] < rate)
  }

  /**
   * The row after visiting positions `0 .. k - 1`, where position `k` trades
   * places with `picks[k]` exactly when `fires[k]` holds.
   */
  function Swaps<X>(s: seq<X>, fires: seq<bool>, picks: seq<nat>, k: nat): (r: seq<X>)
    requires |fires| == |s| && |picks| == |s| && k <= |s|
    requires forall i :: 0 <= i < |s| ==> picks[i] < |s|
    ensures |r| == |s|
  {
    if k == 0 then s
    else
      var m := Swaps(s, fires, picks, k - 1);
      if fires[k - 1] then Swap(m, k - 1, picks[k - 1]) else m
  }

  /** The row after the mutation loop has visited positions `0 .. k - 1`. */
  function Mutated<X>(s: seq<X>, rate: real, rolls: seq<real>, picks: seq<nat>, k: nat): (r: seq<X>)
    requires Draws(rolls, picks, |s|) && k <= |s|
    ensures |r| == |s|
  {
    Swaps(s, Firing(rate, rolls), picks, k)
  }

  /** The mutation only rearranges the row: no city is gained or lost. */
  lemma {:induction false} SwapsPermute<X>(s: seq<X>, fires: seq<bool>, picks: seq<nat>, k: nat)
    requires |fires| == |s| && |picks| == |s| && k <= |s|
    requires forall i :: 0 <= i < |s| ==> picks[i] < |s|
    ensures multiset(Swaps(s, fires, picks, k)) == multiset(s)
  {
    if k > 0 {
      var m := Swaps(s, fires, picks, k - 1);
      SwapsPermute(s, fires, picks, k - 1);
      if fires[k - 1] {
        SwapPermutes(m, k - 1, picks[k - 1]);
      }
    }
  }

  /** Some roll among the first `k` falls below the rate. */
  predicate Fires(rate: real, rolls: seq<real>, k: nat)
    requires k <= |rolls|
  {
    exists m :: 0 <= m < k && rolls[m] < rate
  }

  /** When no roll falls below the rate, the mutation leaves the row as it was. */
  lemma {:induction false} NoFiringNoChange<X>(s: seq<X>, rate: real, rolls: seq<real>, picks: seq<nat>, k: nat)
    requires Draws(rolls, picks, |s|) && k <= |s|
    requires !Fires(rate, rolls, k)
    ensures Mutated(s, rate, rolls, picks, k) == s
  {
    if k > 0 {
      assert !(rolls[k - 1] < rate);
      NoFiringNoChange(s, rate, rolls, picks, k - 1);
    }
  }

  /**
   * With a rate no roll can fall below (every roll is drawn from `[0, 1)`),
   * the mutation leaves the row as it was.
   */
  lemma ZeroRateNoChange<X>(s: seq<X>, rate: real, rolls: seq<real>, picks: seq<nat>)
    requires Draws(rolls, picks, |s|) && rate <= 0.0
    requires forall k :: 0 <= k < |rolls| ==> 0.0 <= rolls[k]
    ensures Mutated(s, rate, rolls, picks, |s|) == s
  {
    NoFiringNoChange(s, rate, rolls, picks, |s|);
  }

  /** Mutating a complete tour yields a complete tour of the same cities. */
  lemma MutationKeepsTour<T>(s: seq<Option<T>>, cities: seq<T>, rate: real, rolls: seq<real>, picks: seq<nat>)
    requires Draws(rolls, picks, |s|) && IsTourOf(s, cities)
    ensures IsTourOf(Mutated(s, rate, rolls, picks, |s|), cities)
  {
    SwapsPermute(s, Firing(rate, rolls), picks, |s|);
    RearrangedTour(s, Mutated(s, rate, rolls, picks, |s|), cities);
  }
}
