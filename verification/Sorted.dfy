/** Underscore's sorted fast paths (app/assets/javascripts/R1.js, line 118): binary search,
    `indexOf` and `uniq`. Numbers are reals, so NaN and the infinities are not in the model. */
module Sorted {

  /** An iterator: what an element is compared by. */
  type Key = real -> real

  function Identity(x: real): real { x }

  ghost predicate SortedBy(a: seq<real>, key: Key) {
    forall i, j :: 0 <= i < j < |a| ==> key(a[i]) <= key(a[j])
  }

  /** `i + a >>> 1`: the sum is cut to 32 bits before it is halved. */
  function Midpoint(i: nat, hi: nat): nat {
    (i + hi) % 0x1_0000_0000 / 2
  }

  /** The cut midpoint stays between the bounds exactly when the sum fits in 32 bits. */
  lemma MidpointInRange(i: nat, hi: nat)
    requires i < hi < 0x1_0000_0000
    ensures i <= Midpoint(i, hi) < hi <==> i + hi < 0x1_0000_0000
  {
    if i + hi >= 0x1_0000_0000 {
      assert (i + hi) % 0x1_0000_0000 == i + hi - 0x1_0000_0000;
    }
  }

  /** The least index whose key is not below the target's: where to insert it. */
  ghost predicate IsInsertionPoint(a: seq<real>, key: Key, x: real, k: int) {
    && 0 <= k <= |a|
    && (forall j :: 0 <= j < k ==> key(a[j]) < key(x))
    && (forall j :: k <= j < |a| ==> key(a[j]) >= key(x))
  }

  /** `sortedIndex`; arrays beyond 2^31 elements would lose the top bit of the midpoint. */
  method SortedIndex(a: seq<real>, x: real, key: Key) returns (i: nat)
    requires SortedBy(a, key) && |a| <= 0x8000_0000
    ensures IsInsertionPoint(a, key, x, i)
  {
    i := 0;
    var hi := |a|;
    while hi > i
      invariant i <= hi <= |a|
      invariant forall j :: 0 <= j < i ==> key(a[j]) < key(x)
      invariant forall j :: hi <= j < |a| ==> key(a[j]) >= key(x)
    {
      MidpointInRange(i, hi);
      var mid := Midpoint(i, hi);
      if key(a[mid]) < key(x) {
        i := mid + 1;
      } else {
        hi := mid;
      }
    }
  }

  /** The third argument of `indexOf`. */
  datatype From = Missing | IsSorted | Start(at: int)

  /** The first index from `from` on that holds the element, or -1. */
  function FirstFrom(a: seq<real>, x: real, from: nat): (r: int)
    ensures r == -1 || from <= r < |a|
    ensures r == -1 ==> forall j :: from <= j < |a| ==> a[j] != x
    ensures r >= 0 ==> a[r] == x && forall j :: from <= j < r ==> a[j] != x
    decreases |a| - from
  {
    if from >= |a| then -1 else if a[from] == x then from else FirstFrom(a, x, from + 1)
  }

  /** Where the scan starts: a negative start leaves as many elements to scan, or all of them. */
  function StartOf(a: seq<real>, from: From): (r: nat)
    ensures from.Start? && from.at < 0 ==> |a| - r == if -from.at <= |a| then -from.at else |a|
    ensures from.Start? && from.at >= 0 ==> r == from.at
    ensures !from.Start? ==> r == 0
  {
    if !from.Start? then 0
    else if from.at >= 0 then from.at
    else if |a| + from.at < 0 then 0 else |a| + from.at
  }

  /** `indexOf`: on a sorted array the binary search finds what the scan finds. */
  method IndexOf(a: seq<real>, x: real, from: From) returns (r: int)
    requires from.IsSorted? ==> SortedBy(a, Identity) && |a| <= 0x8000_0000
    ensures r == FirstFrom(a, x, StartOf(a, from))
  {
    if from.IsSorted? {
      var e := SortedIndex(a, x, Identity);
      return if e < |a| && a[e] == x then e else -1;
    }
    var e := if !from.Start? then 0
             else if from.at < 0 then (if 0 > |a| + from.at then 0 else |a| + from.at)
             else from.at;
    while |a| > e
      invariant 0 <= e && StartOf(a, from) <= e
      invariant FirstFrom(a, x, StartOf(a, from)) == FirstFrom(a, x, e)
    {
      if a[e] == x {
        return e;
      }
      e := e + 1;
    }
    return -1;
  }

  // ---------------------------------------------------------------- uniq

  /** The keys whose first element is among the first `n`, in order of appearance. */
  function FirstSeen(a: seq<real>, key: Key, n: nat): seq<real>
    requires n <= |a|
  {
    if n == 0 then []
    else
      var before := FirstSeen(a, key, n - 1);
      if key(a[n - 1]) in before then before else before + [key(a[n - 1])]
  }

  /** The elements that bring a new key, in order: what `uniq` is meant to return. */
  function Uniques(a: seq<real>, key: Key, n: nat): seq<real>
    requires n <= |a|
  {
    if n == 0 then []
    else
      var before := Uniques(a, key, n - 1);
      if key(a[n - 1]) in FirstSeen(a, key, n - 1) then before else before + [a[n - 1]]
  }

  /** Equal keys stand next to each other: no key comes back after another one. */
  ghost predicate Grouped(a: seq<real>, key: Key) {
    forall i, j, k :: 0 <= i < j < k < |a| && key(a[i]) == key(a[k]) ==> key(a[j]) == key(a[i])
  }

  /** The elements whose key differs from the one before: what the sorted path keeps. */
  function Changes(a: seq<real>, key: Key, n: nat): seq<real>
    requires n <= |a|
  {
    if n == 0 then []
    else if n > 1 && key(a[n - 2]) == key(a[n - 1]) then Changes(a, key, n - 1)
    else Changes(a, key, n - 1) + [a[n - 1]]
  }

  /** `uniq`: the sorted path compares with the last key seen, the other one with all of them. */
  method Uniq(a: seq<real>, isSorted: bool, key: Key) returns (result: seq<real>)
    ensures result == if isSorted then Changes(a, key, |a|) else Uniques(a, key, |a|)
  {
    result := [];
    var seen := [];
    for index := 0 to |a|
      invariant !isSorted ==> seen == FirstSeen(a, key, index) && result == Uniques(a, key, index)
      invariant isSorted ==> result == Changes(a, key, index)
      invariant isSorted && index > 0 ==> seen != [] && seen[|seen| - 1] == key(a[index - 1])
    {
      var value := key(a[index]);
      var skip := if isSorted then index > 0 && seen[|seen| - 1] == value else value in seen;
      if !skip {
        seen := seen + [value];
        result := result + [a[index]];
      }
    }
  }

  // ---- the two paths

  lemma {:induction false} SeenHas(a: seq<real>, key: Key, n: nat, i: nat)
    requires i < n <= |a|
    ensures key(a[i]) in FirstSeen(a, key, n)
    decreases n
  {
    if i < n - 1 {
      SeenHas(a, key, n - 1, i);
    }
  }

  lemma {:induction false} SeenAt(a: seq<real>, key: Key, n: nat, v: real) returns (i: nat)
    requires n <= |a| && v in FirstSeen(a, key, n)
    ensures i < n && key(a[i]) == v
    decreases n
  {
    if v in FirstSeen(a, key, n - 1) {
      i := SeenAt(a, key, n - 1, v);
    } else {
      i := n - 1;
    }
  }

  /** The sorted path never keeps less. */
  lemma {:induction false} ChangesNotShorter(a: seq<real>, key: Key, n: nat)
    requires n <= |a|
    ensures |Uniques(a, key, n)| <= |Changes(a, key, n)|
    decreases n
  {
    if n > 0 {
      ChangesNotShorter(a, key, n - 1);
      if n > 1 && key(a[n - 2]) == key(a[n - 1]) {
        SeenHas(a, key, n - 1, n - 2);
      }
    }
  }

  /** At a key that comes back after another one the sorted path keeps one element too many. */
  lemma {:induction false} ComebackKeepsMore(a: seq<real>, key: Key, i: nat, j: nat, k: nat, n: nat)
    requires i < j < k < n <= |a| && key(a[i]) == key(a[k]) && key(a[j]) != key(a[i])
    ensures |Uniques(a, key, n)| < |Changes(a, key, n)|
    decreases n
  {
    hide FirstSeen, Uniques, Changes;
    if k == n - 1 && key(a[n - 2]) != key(a[n - 1]) {
      SeenHas(a, key, n - 1, i);
      ChangesNotShorter(a, key, n - 1);
      KeptAgain(a, key, n);
    } else {
      ComebackKeepsMore(a, key, i, j, if k < n - 1 then k else k - 1, n - 1);
      LeadStays(a, key, n);
    }
  }

  lemma KeptAgain(a: seq<real>, key: Key, n: nat)
    requires 1 < n <= |a| && key(a[n - 2]) != key(a[n - 1]) && key(a[n - 1]) in FirstSeen(a, key, n - 1)
    ensures Uniques(a, key, n) == Uniques(a, key, n - 1) && |Changes(a, key, n)| == |Changes(a, key, n - 1)| + 1
  {
    hide FirstSeen;
  }

  lemma LeadStays(a: seq<real>, key: Key, n: nat)
    requires 1 < n <= |a| && |Uniques(a, key, n - 1)| < |Changes(a, key, n - 1)|
    ensures |Uniques(a, key, n)| < |Changes(a, key, n)|
  {
    hide FirstSeen;
    RepeatIsSeen(a, key, n);
  }

  /** What the sorted path skips, the other one skips. */
  lemma RepeatIsSeen(a: seq<real>, key: Key, n: nat)
    requires 1 < n <= |a|
    ensures key(a[n - 2]) == key(a[n - 1]) ==> key(a[n - 1]) in FirstSeen(a, key, n - 1)
  {
    SeenHas(a, key, n - 1, n - 2);
  }

  lemma {:induction false} GroupedAgree(a: seq<real>, key: Key, n: nat)
    requires n <= |a| && Grouped(a, key)
    ensures Changes(a, key, n) == Uniques(a, key, n)
    decreases n
  {
    if n > 0 {
      GroupedAgree(a, key, n - 1);
      if key(a[n - 1]) in FirstSeen(a, key, n - 1) {
        var i := SeenAt(a, key, n - 1, key(a[n - 1]));
        assert i < n - 2 ==> key(a[n - 2]) == key(a[i]);
      } else if n > 1 {
        SeenHas(a, key, n - 1, n - 2);
      }
    }
  }

  /** The sorted path returns what the membership test returns exactly on arrays whose equal keys
      stand next to each other, sorted ones among them. */
  lemma {:induction false} SortedPathExactly(a: seq<real>, key: Key)
    ensures Changes(a, key, |a|) == Uniques(a, key, |a|) <==> Grouped(a, key)
    ensures SortedBy(a, key) ==> Grouped(a, key)
  {
    hide Changes, Uniques, SortedBy;
    SortedIsGrouped(a, key);
    if Grouped(a, key) {
      GroupedAgree(a, key, |a|);
    } else {
      var i, j, k :| 0 <= i < j < k < |a| && key(a[i]) == key(a[k]) && key(a[j]) != key(a[i]);
      ComebackKeepsMore(a, key, i, j, k, |a|);
    }
  }

  lemma SortedIsGrouped(a: seq<real>, key: Key)
    ensures SortedBy(a, key) ==> Grouped(a, key)
  {
  }

  lemma {:induction false} UniquesKeys(a: seq<real>, key: Key, n: nat)
    requires n <= |a|
    ensures var u, seen := Uniques(a, key, n), FirstSeen(a, key, n);
      && |u| == |seen|
      && (forall j :: 0 <= j < |u| ==> key(u[j]) == seen[j] && u[j] in a)
      && (forall i, j :: 0 <= i < j < |seen| ==> seen[i] != seen[j])
    decreases n
  {
    if n > 0 {
      UniquesKeys(a, key, n - 1);
    }
  }

  /** What the membership path returns: elements of the array, no key twice, and every key. */
  lemma UniquesCover(a: seq<real>, key: Key)
    ensures var u := Uniques(a, key, |a|);
      && (forall j :: 0 <= j < |u| ==> u[j] in a)
      && (forall i, j :: 0 <= i < j < |u| ==> key(u[i]) != key(u[j]))
      && (forall i :: 0 <= i < |a| ==> exists j :: 0 <= j < |u| && key(u[j]) == key(a[i]))
  {
    UniquesKeys(a, key, |a|);
    var u, seen := Uniques(a, key, |a|), FirstSeen(a, key, |a|);
    forall i | 0 <= i < |a| ensures exists j :: 0 <= j < |u| && key(u[j]) == key(a[i]) {
      SeenHas(a, key, |a|, i);
      var j :| 0 <= j < |seen| && seen[j] == key(a[i]);
      assert key(u[j]) == key(a[i]);
    }
  }

  /** These are the places of the keys' first elements, in order. */
  ghost predicate FirstPlaces(a: seq<real>, key: Key, n: nat, at: seq<nat>)
    requires n <= |a|
  {
    && (forall j :: 0 <= j < |at| ==> at[j] < n)
    && (forall i, j :: 0 <= i < j < |at| ==> at[i] < at[j])
    && (forall i, j :: 0 <= j < |at| && 0 <= i < at[j] ==> key(a[i]) != key(a[at[j]]))
  }

  /** The results of the membership path stand in the order of the array, and each is the first element
      of its key. */
  lemma {:induction false} UniquesAreFirst(a: seq<real>, key: Key, n: nat) returns (at: seq<nat>)
    requires n <= |a|
    ensures FirstPlaces(a, key, n, at)
    ensures var u := Uniques(a, key, n);
      |at| == |u| && forall j :: 0 <= j < |u| ==> u[j] == a[at[j]]
    decreases n
  {
    hide FirstPlaces, FirstSeen;
    if n == 0 {
      at := [];
      NoPlaces(a, key);
    } else {
      at := UniquesAreFirst(a, key, n - 1);
      var brings := key(a[n - 1]) !in FirstSeen(a, key, n - 1);
      NextPlace(a, key, n - 1, at, brings);
      if brings {
        at := at + [n - 1];
      }
    }
  }

  lemma NoPlaces(a: seq<real>, key: Key)
    ensures FirstPlaces(a, key, 0, [])
  {
  }

  lemma NextPlace(a: seq<real>, key: Key, n: nat, at: seq<nat>, brings: bool)
    requires n < |a| && FirstPlaces(a, key, n, at) && brings == (key(a[n]) !in FirstSeen(a, key, n))
    ensures FirstPlaces(a, key, n + 1, if brings then at + [n] else at)
  {
    hide FirstSeen;
    if brings {
      forall i | 0 <= i < n ensures key(a[i]) != key(a[n]) {
        SeenHas(a, key, n, i);
      }
    }
  }
}
