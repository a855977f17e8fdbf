/**
 * `common.shuffle_list` is not part of this model; it is replaced by an
 * injected source of draws. Each draw picks the elements one at a time
 * (Fisher-Yates style), so every draw yields a permutation and every
 * permutation is the result of some draw: contracts that hold for every
 * draw hold for every shuffle.
 */
module Shuffling {

  /** The order that draw `picks` gives to `xs`; a missing pick counts as 0. */
  function Permute<T>(xs: seq<T>, picks: seq<nat>): (ys: seq<T>)
    ensures multiset(ys) == multiset(xs)
    ensures |ys| == |xs|
    decreases |xs|
  {
    if xs == [] then []
    else
      var p := if picks == [] then 0 else picks[0];
      var j := if p < |xs| then p else p % |xs|;
      var rest := xs[..j] + xs[j + 1..];
      SplitAt(xs, j);
      [xs[j]] + Permute(rest, if picks == [] then [] else picks[1..])
  }

  /** Every rearrangement of `xs` is what some draw gives. */
  lemma {:induction false} EveryOrderIsADraw<T>(xs: seq<T>, ys: seq<T>) returns (picks: seq<nat>)
    requires multiset(ys) == multiset(xs)
    ensures Permute(xs, picks) == ys
    decreases |xs|
  {
    if xs == [] {
      assert |ys| == |multiset(ys)| == 0;
      picks := [];
    } else {
      var j := PickFirst(xs, ys);
      var more := EveryOrderIsADraw(xs[..j] + xs[j + 1..], ys[1..]);
      picks := [j] + more;
      PermuteFirst(xs, j, more);
      assert ys == [ys[0]] + ys[1..];
    }
  }

  /** Where the first element of a rearrangement `ys` sits in `xs`. */
  lemma PickFirst<T>(xs: seq<T>, ys: seq<T>) returns (j: nat)
    requires multiset(ys) == multiset(xs) && xs != []
    ensures j < |xs| && |ys| == |xs| && xs[j] == ys[0]
    ensures multiset(ys[1..]) == multiset(xs[..j] + xs[j + 1..])
  {
    SameLength(xs, ys);
    j := PositionIn(xs, ys, 0);
    RemoveAt(xs, j);
    RemoveFirst(ys);
  }

  lemma RemoveFirst<T>(ys: seq<T>)
    requires ys != []
    ensures multiset(ys[1..]) == multiset(ys) - multiset{ys[0]}
  {
    assert ys == [ys[0]] + ys[1..];
  }

  lemma PermuteFirst<T>(xs: seq<T>, j: nat, more: seq<nat>)
    requires j < |xs|
    ensures Permute(xs, [j] + more) == [xs[j]] + Permute(xs[..j] + xs[j + 1..], more)
  {
    var picks := [j] + more;
    assert picks != [] && picks[0] == j && picks[1..] == more;
  }

  lemma SameLength<T>(xs: seq<T>, ys: seq<T>)
    requires multiset(ys) == multiset(xs)
    ensures |ys| == |xs|
  {
    assert |ys| == |multiset(ys)|;
    assert |xs| == |multiset(xs)|;
  }

  lemma RemoveAt<T>(xs: seq<T>, j: nat)
    requires j < |xs|
    ensures multiset(xs[..j] + xs[j + 1..]) == multiset(xs) - multiset{xs[j]}
  {
    assert xs == xs[..j] + [xs[j]] + xs[j + 1..];
  }

  lemma SplitAt<T>(xs: seq<T>, j: nat)
    requires j < |xs|
    ensures multiset(xs) == multiset{xs[j]} + multiset(xs[..j] + xs[j + 1..])
  {
    assert xs == xs[..j] + [xs[j]] + xs[j + 1..];
  }

  /** Where the element at position `i` of a rearrangement `ys` sits in `xs`. */
  lemma PositionIn<T>(xs: seq<T>, ys: seq<T>, i: nat) returns (j: nat)
    requires multiset(ys) == multiset(xs) && i < |ys|
    ensures j < |xs| && xs[j] == ys[i]
  {
    assert ys[i] in multiset(ys);
    assert ys[i] in xs;
    j :| 0 <= j < |xs| && xs[j] == ys[i];
  }

  /** For a permutation `ys` of `xs`, where in `xs` each element of `ys` sits. */
  lemma Positions<T>(xs: seq<T>, ys: seq<T>) returns (ps: seq<nat>)
    requires multiset(ys) == multiset(xs)
    ensures |ps| == |ys|
    ensures forall k :: 0 <= k < |ys| ==> ps[k] < |xs| && xs[ps[k]] == ys[k]
  {
    ps := [];
    while |ps| < |ys|
      invariant |ps| <= |ys|
      invariant forall k :: 0 <= k < |ps| ==> ps[k] < |xs| && xs[ps[k]] == ys[k]
    {
      var j := PositionIn(xs, ys, |ps|);
      ps := ps + [j];
    }
  }

  /** The first draw of a stream, or the empty draw once it is exhausted. */
  function NextDraw(draws: seq<seq<nat>>): seq<nat>
  {
    if draws == [] then [] else draws[0]
  }

  function LaterDraws(draws: seq<seq<nat>>): seq<seq<nat>>
  {
    if draws == [] then [] else draws[1..]
  }

  /** The injected random generator: a stream of draws, one consumed per shuffle. */
  class RandomSource {
    var draws: seq<seq<nat>>

    constructor (draws: seq<seq<nat>>)
      ensures this.draws == draws
    {
      this.draws := draws;
    }

    /** `shuffle_list(xs)`: a new list holding the elements of `xs` in the next draw's order. */
    method Shuffle<T>(xs: seq<T>) returns (ys: seq<T>)
      modifies this
      ensures ys == Permute(xs, NextDraw(old(draws)))
      ensures multiset(ys) == multiset(xs)
      ensures draws == LaterDraws(old(draws))
    {
      ys := Permute(xs, NextDraw(draws));
      draws := LaterDraws(draws);
    }
  }
}
