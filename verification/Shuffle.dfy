/** Underscore's inside-out shuffle (app/assets/javascripts/R1.js, line 118). The random numbers
    are a parameter: `choices[i]` is what `random(i)` returned for element `i`. */
module Shuffle {
  import opened Sequences

  /** `random(max)`: `floor(u * (max + 1))` for a draw `u` in [0, 1). */
  function Random(max: nat, u: real): int
    requires 0.0 <= u < 1.0
  {
    (u * (max + 1) as real).Floor
  }

  /** Every index up to the maximum can be drawn, and nothing else. */
  lemma RandomRange(max: nat, u: real, t: nat)
    requires 0.0 <= u < 1.0 && t <= max
    ensures 0 <= Random(max, u) <= max
    ensures exists v: real | 0.0 <= v < 1.0 :: Random(max, v) == t
  {
    var n := (max + 1) as real;
    assert 0.0 <= u * n < n by {
      Scale(u, n);
    }
    var v := t as real / n;
    assert v * n == t as real;
    assert 0.0 <= v < 1.0;
    assert Random(max, v) == t;
  }

  lemma Scale(u: real, n: real)
    requires 0.0 <= u < 1.0 && n > 0.0
    ensures 0.0 <= u * n < n
  {
  }

  /** One choice `t` in `0..i` for each element `i`. */
  predicate Choices(n: nat, choices: seq<nat>) {
    |choices| == n && forall i :: 0 <= i < n ==> choices[i] <= i
  }

  /** One step: the element at `t` moves to the end, the new one takes its place. */
  function Place<T>(e: seq<T>, x: T, t: nat): seq<T>
    requires t <= |e|
  {
    if t == |e| then e + [x] else (e + [e[t]])[t := x]
  }

  function Shuffled<T>(s: seq<T>, choices: seq<nat>): (r: seq<T>)
    requires Choices(|s|, choices)
    ensures |r| == |s|
    decreases |s|
  {
    if s == [] then []
    else
      var n := |s| - 1;
      Place(Shuffled(s[..n], choices[..n]), s[n], choices[n])
  }

  /** `shuffle` over its growing array. A slot is written before it is read: the last one first
      receives the displaced element, which is missing when the new element goes there itself. */
  method ShuffleArray<T(0)>(s: seq<T>, choices: seq<nat>) returns (e: array<T>)
    requires Choices(|s|, choices)
    ensures fresh(e) && e[..] == Shuffled(s, choices)
  {
    e := new T[|s|];
    var r := 0;
    assert s[..0] == [] && choices[..0] == [];
    while r < |s|
      invariant 0 <= r <= |s|
      invariant Choices(r, choices[..r]) && e[..r] == Shuffled(s[..r], choices[..r])
    {
      var t := choices[r];
      ghost var before := e[..r];
      r := r + 1;
      e[r - 1] := e[t];
      e[t] := s[r - 1];
      assert e[..r] == Place(before, s[r - 1], t);
      assert s[..r][..r - 1] == s[..r - 1] && choices[..r][..r - 1] == choices[..r - 1];
    }
    assert s[..r] == s && choices[..r] == choices && e[..r] == e[..];
  }

  // ---------------------------------------------------------------- a permutation

  lemma PlaceKeeps<T>(e: seq<T>, x: T, t: nat)
    requires t <= |e|
    ensures multiset(Place(e, x, t)) == multiset(e) + multiset{x}
  {
    if t < |e| {
      var grown := e + [e[t]];
      assert multiset(grown) == multiset(e) + multiset{e[t]};
      assert multiset(grown[t := x]) == multiset(grown)[grown[t] := multiset(grown)[grown[t]] - 1] + multiset{x};
    }
  }

  /** Whatever was drawn, the result holds exactly the elements of the input. */
  lemma {:induction false} IsPermutation<T>(s: seq<T>, choices: seq<nat>)
    requires Choices(|s|, choices)
    ensures multiset(Shuffled(s, choices)) == multiset(s)
    decreases |s|
  {
    hide Place;
    if s != [] {
      var n := |s| - 1;
      IsPermutation(s[..n], choices[..n]);
      PlaceKeeps(Shuffled(s[..n], choices[..n]), s[n], choices[n]);
      assert s == s[..n] + [s[n]];
    }
  }

  // ---------------------------------------------------------------- each order from one draw

  /** Where an element stands. */
  function IndexIn<T(==)>(p: seq<T>, x: T): (k: nat)
    requires x in p
    ensures k < |p| && p[k] == x
  {
    if p[|p| - 1] == x then |p| - 1 else IndexIn(p[..|p| - 1], x)
  }

  /** Undoing one step: the last element goes back to `t`. */
  function Unplace<T>(p: seq<T>, t: nat): seq<T>
    requires t < |p|
  {
    p[t := p[|p| - 1]][..|p| - 1]
  }

  /** The draws that lead to the order `p`. */
  function Draws<T(==)>(s: seq<T>, p: seq<T>): (choices: seq<nat>)
    requires multiset(p) == multiset(s)
    ensures Choices(|s|, choices)
    decreases |s|
  {
    SameSize(s, p);
    if s == [] then []
    else
      var n := |s| - 1;
      assert s[n] in multiset(s);
      var t := IndexIn(p, s[n]);
      UnplaceKeeps(s, p, t);
      Draws(s[..n], Unplace(p, t)) + [t]
  }

  lemma SameSize<T>(s: seq<T>, p: seq<T>)
    requires multiset(p) == multiset(s)
    ensures |p| == |s|
  {
    assert |multiset(p)| == |p| && |multiset(s)| == |s|;
  }

  lemma UnplaceKeeps<T>(s: seq<T>, p: seq<T>, t: nat)
    requires multiset(p) == multiset(s) && |p| == |s| > 0 && t < |p| && p[t] == s[|s| - 1]
    ensures multiset(Unplace(p, t)) == multiset(s[..|s| - 1])
    ensures Place(Unplace(p, t), p[t], t) == p
  {
    var n := |s| - 1;
    assert s == s[..n] + [s[n]];
    assert multiset(s) == multiset(s[..n]) + multiset{s[n]};
    var q := Unplace(p, t);
    assert Place(q, p[t], t) == p;
    PlaceKeeps(q, p[t], t);
    Cancel(multiset(q), multiset(s[..n]), s[n]);
  }

  lemma Cancel<T>(a: multiset<T>, b: multiset<T>, x: T)
    requires a + multiset{x} == b + multiset{x}
    ensures a == b
  {
    assert a == (a + multiset{x}) - multiset{x};
    assert b == (b + multiset{x}) - multiset{x};
  }

  /** Every order is reached. */
  lemma {:induction false} EveryOrder<T>(s: seq<T>, p: seq<T>)
    requires multiset(p) == multiset(s)
    ensures Shuffled(s, Draws(s, p)) == p
    decreases |s|
  {
    SameSize(s, p);
    if s != [] {
      var n := |s| - 1;
      assert s[n] in multiset(s);
      var t := IndexIn(p, s[n]);
      UnplaceKeeps(s, p, t);
      EveryOrder(s[..n], Unplace(p, t));
      assert (Draws(s[..n], Unplace(p, t)) + [t])[..n] == Draws(s[..n], Unplace(p, t));
    }
  }

  /** For distinct elements no order is reached twice: the draws can be read off the result. */
  lemma {:induction false} EachOrderOnce<T>(s: seq<T>, choices: seq<nat>)
    requires Choices(|s|, choices) && Distinct(s)
    ensures multiset(Shuffled(s, choices)) == multiset(s)
    ensures Draws(s, Shuffled(s, choices)) == choices
    decreases |s|
  {
    IsPermutation(s, choices);
    if s != [] {
      var n := |s| - 1;
      var q, t := Shuffled(s[..n], choices[..n]), choices[n];
      assert Distinct(s[..n]) && choices == choices[..n] + [t];
      EachOrderOnce(s[..n], choices[..n]);
      hide Place, Unplace, IndexIn, Distinct;
      LastStep(s, q, t);
      assert Shuffled(s, choices) == Place(q, s[n], t);
    }
  }

  /** The last draw can be read off: the new element stands only where it was placed. */
  lemma LastStep<T>(s: seq<T>, q: seq<T>, t: nat)
    requires s != [] && Distinct(s) && multiset(q) == multiset(s[..|s| - 1]) && t <= |q|
    ensures var p, x := Place(q, s[|s| - 1], t), s[|s| - 1];
      x in p && IndexIn(p, x) == t && Unplace(p, t) == q
  {
    var x, p := s[|s| - 1], Place(q, s[|s| - 1], t);
    assert forall y :: y in q ==> y in multiset(q);
    assert x !in s[..|s| - 1];
    assert x !in q;
    assert p[t] == x;
    forall k | 0 <= k < |p| && k != t ensures p[k] != x {
      assert p[k] in q by {
        assert p[k] == if k < |q| then q[k] else q[t];
      }
    }
  }
}
