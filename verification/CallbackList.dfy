/** The list as the source writes it: an object whose methods update the closure variables.
    Every method is proved to take exactly the step of the machine in Callbacks.dfy. */
module CallbackLists {
  import opened Wrappers
  import opened Callbacks
  import opened OnceMemory

  class CallbackList {
    const opts: Options
    var memory: Option<Args>
    var fired: bool
    var firing: bool
    var firingStart: nat
    var firingLength: nat
    var firingIndex: int
    var data: Args
    var list: Option<seq<Entry>>
    var stack: Option<seq<Args>>
    // History; `calls` also tells which callback is running.
    var added: seq<Callback>
    ghost var removed: set<nat>
    var calls: seq<Call>

    ghost function Value(): State
      reads this
    {
      State(opts, memory, fired, firing, firingStart, firingLength, firingIndex, data, list, stack,
            added, removed, calls)
    }

    constructor (opts: Options)
      ensures this.opts == opts && Value() == Init(opts)
    {
      this.opts := opts;
      memory, fired, firing := None, false, false;
      firingStart, firingLength, firingIndex, data := 0, 0, 0, 0;
      list, stack := Some([]), if opts.once then None else Some([]);
      added, removed, calls := [], {}, [];
    }

    /** `inArray(cb, list, from)` */
    method IndexOf(cb: Callback, from: nat) returns (index: int)
      requires list.Some? && from <= |list.value|
      ensures index == -1 || from <= index < |list.value|
      ensures index == -1 ==> forall k :: from <= k < |list.value| ==> list.value[k].cb != cb
      ensures index >= 0 ==> list.value[index].cb == cb
      ensures index >= 0 ==> forall k :: from <= k < index ==> list.value[k].cb != cb
    {
      for k := from to |list.value|
        invariant forall i :: from <= i < k ==> list.value[i].cb != cb
      {
        if list.value[k].cb == cb {
          return k;
        }
      }
      return -1;
    }

    /** `unique && has(cb) || list.push(cb)` */
    method PushOne(cb: Callback)
      requires list.Some?
      modifies this`list, this`added
      ensures Value() == Push(old(Value()), cb)
    {
      var held := -1;
      if opts.unique {
        held := IndexOf(cb, 0);
      }
      if held == -1 {
        list, added := Some(list.value + [Entry(cb, |added|)]), added + [cb];
      }
    }

    method PushEach(cbs: seq<Callback>)
      requires list.Some?
      modifies this`list, this`added
      ensures Value() == PushAll(old(Value()), cbs)
    {
      assert cbs[0..] == cbs;
      for k := 0 to |cbs|
        invariant list.Some?
        invariant PushAll(Value(), cbs[k..]) == PushAll(old(Value()), cbs)
      {
        assert cbs[k..][1..] == cbs[k + 1..] && cbs[k..][0] == cbs[k];
        PushOne(cbs[k]);
      }
    }

    method Add(cbs: seq<Callback>)
      requires Valid(Value())
      modifies this
      ensures Value() == AddAll(old(Value()), cbs)
    {
      if list.None? {
        return;
      }
      var start := |list.value|;
      PushEach(cbs);
      if firing {
        firingLength := |list.value|;
      } else if memory.Some? {
        firingStart := start;
        BeginFiring(memory.value);
      }
    }

    /** `fire(data)`, up to the first callback. */
    method BeginFiring(data: Args)
      requires list.Some? && firingStart <= |list.value|
      modifies this
      ensures Value() == Start(old(Value()), data)
      decreases StackSize(Value()), 1
    {
      memory := if opts.memory then Some(data) else None;
      fired := true;
      firingIndex := firingStart;
      firingStart := 0;
      firingLength := |list.value|;
      this.data := data;
      firing := true;
      LoopHead();
    }

    method LoopHead()
      requires firing && firingStart == 0 && fired && 0 <= firingIndex
      requires list.Some? ==> firingLength == |list.value|
      modifies this
      ensures Value() == Advance(old(Value()))
      decreases StackSize(Value()), 0
    {
      if list.Some? && firingIndex < firingLength {
        calls := calls + [Call(list.value[firingIndex], data)];
      } else {
        EndFiring();
      }
    }

    method EndFiring()
      requires firingStart == 0
      modifies this
      ensures Value() == Finish(old(Value()))
      decreases StackSize(Value()), 0, 0
    {
      firing := false;
      if list.Some? {
        if stack.Some? {
          if stack.value != [] {
            var next := stack.value[0];
            stack := Some(stack.value[1..]);
            BeginFiring(next);
          }
        } else if memory.Some? {
          list := Some([]);
        } else {
          list, stack, memory := None, None, None;
        }
      }
    }

    /** The running callback returns. */
    method Return(result: bool)
      requires Valid(Value()) && firing
      modifies this
      ensures Value() == ReturnFrom(old(Value()), result)
    {
      if !result && opts.stopOnFalse {
        memory := None;
        EndFiring();
      } else {
        firingIndex := firingIndex + 1;
        LoopHead();
      }
    }

    method Fire(args: Args)
      requires Valid(Value())
      modifies this
      ensures Value() == FireWith(old(Value()), args)
    {
      if list.None? || (fired && stack.None?) {
        return;
      }
      if firing {
        stack := Some(stack.value + [args]);
      } else {
        BeginFiring(args);
      }
    }

    /** The body of the loop in `remove`: one occurrence leaves, and the cursors follow. */
    method SpliceAt(index: nat)
      requires list.Some? && index < |list.value|
      requires firing ==> firingLength == |list.value|
      modifies this`list, this`firingLength, this`firingIndex
      ensures list == Some(old(list.value[..index] + list.value[index + 1..]))
      ensures firingLength == if firing then |list.value| else old(firingLength)
      ensures firingIndex == if firing && old(firingIndex) >= index then old(firingIndex) - 1 else old(firingIndex)
    {
      list := Some(list.value[..index] + list.value[index + 1..]);
      if firing {
        if firingLength >= index {
          firingLength := firingLength - 1;
        }
        if firingIndex >= index {
          firingIndex := firingIndex - 1;
        }
      }
    }

    /** In the middle of removing `cb` from `es`: the first `p` entries are done, the next
        occurrence is at `index` of what is left, and the firing index has followed. */
    ghost predicate Removing(es: seq<Entry>, g: int, len: nat, cb: Callback, p: nat, index: int)
      reads this
    {
      && p <= |es| && list == Some(Without(es[..p], cb) + es[p..])
      && -1 <= index && (index == -1 ==> p == |es|)
      && (index >= 0 ==> p < |es| && es[p].cb == cb && index == |Without(es[..p], cb)|)
      && firingLength == (if firing then |list.value| else len)
      && firingIndex == (if firing then Shifted(es, g, p, cb) else g)
    }

    /** One turn of the loop: splice, then look for the next occurrence from the same index. */
    method RemoveTurn(cb: Callback, index: nat, ghost es: seq<Entry>, ghost g: int, ghost len: nat, ghost p: nat)
      returns (found: int, ghost q: nat)
      requires Removing(es, g, len, cb, p, index)
      modifies this`list, this`firingLength, this`firingIndex
      ensures Removing(es, g, len, cb, q, found) && p < q
    {
      ghost var was := list.value;
      SpliceAt(index);
      found := IndexOf(cb, index);
      q := OneTurn(es, g, p, cb, was, index, list.value, found);
    }

    /** One argument of `remove`: the loop that splices out every occurrence. */
    method SpliceAll(cb: Callback)
      requires list.Some? && (firing ==> firingLength == |list.value|)
      modifies this`list, this`firingLength, this`firingIndex
      ensures list == Some(Without(old(list.value), cb))
      ensures firingLength == if firing then |list.value| else old(firingLength)
      ensures firingIndex ==
        if firing then Shifted(old(list.value), old(firingIndex), |old(list.value)|, cb) else old(firingIndex)
    {
      ghost var es, g, len := list.value, firingIndex, firingLength;
      var index := IndexOf(cb, 0);
      ghost var p := FirstOccurrence(es, g, cb, index);
      while index > -1
        invariant Removing(es, g, len, cb, p, index)
        decreases |es| - p
      {
        index, p := RemoveTurn(cb, index, es, g, len, p);
      }
      NothingLeft(es, p, cb);
    }

    method RemoveCallback(cb: Callback)
      requires Valid(Value()) && list.Some?
      modifies this
      ensures Value() == RemoveOne(old(Value()), cb)
    {
      ghost var s := Value();
      SpliceAll(cb);
      removed := removed + SerialsOf(s.list.value, cb);
      assert s.(list := list, firingLength := firingLength, firingIndex := firingIndex, removed := removed)
          == RemoveOne(s, cb);
    }

    method Remove(cbs: seq<Callback>)
      requires Valid(Value())
      modifies this
      ensures Value() == RemoveAll(old(Value()), cbs)
    {
      if list.None? {
        RemoveFromNothing(Value(), cbs);
        return;
      }
      assert cbs[0..] == cbs;
      for k := 0 to |cbs|
        invariant Valid(Value()) && list.Some?
        invariant RemoveAll(Value(), cbs[k..]) == RemoveAll(old(Value()), cbs)
      {
        assert cbs[k..][1..] == cbs[k + 1..] && cbs[k..][0] == cbs[k];
        RemoveCallback(cbs[k]);
      }
    }

    method Empty()
      modifies this
      ensures Value() == EmptyList(old(Value()))
    {
      removed := removed + AllSerials(Value());
      list, firingLength := Some([]), 0;
    }

    method Disable()
      modifies this
      ensures Value() == DisableNow(old(Value()))
    {
      removed := removed + AllSerials(Value());
      list, stack, memory := None, None, None;
    }

    method Lock()
      modifies this
      ensures Value() == LockNow(old(Value()))
    {
      stack := None;
      if memory.None? {
        Disable();
      }
    }

    /** One event of a run */
    method Do(e: Event)
      requires Valid(Value())
      modifies this
      ensures Value() == Step(old(Value()), e)
    {
      hide Valid, AddAll, RemoveAll, FireWith, ReturnFrom;
      match e
      case Add(cbs) => Add(cbs);
      case Remove(cbs) => Remove(cbs);
      case Fire(args) => Fire(args);
      case Empty => Empty();
      case Disable => Disable();
      case Lock => Lock();
      case Return(result) => if firing { Return(result); }
    }
  }

  /** A whole run on a real list makes the calls of the machine's run. */
  method Drive(opts: Options, evs: seq<Event>) returns (calls: seq<Call>, fired: bool, firing: bool)
    ensures var s := Run(opts, evs);
      calls == s.calls && fired == s.fired && firing == s.firing
  {
    hide Step, Valid;
    var cs := new CallbackList(opts);
    for k := 0 to |evs|
      invariant cs.Value() == Run(opts, evs[..k])
      invariant fresh(cs)
    {
      assert evs[..k + 1][..k] == evs[..k];
      cs.Do(evs[k]);
    }
    assert evs[..|evs|] == evs;
    calls, fired, firing := cs.calls, cs.fired, cs.firing;
  }

  // ---------------------------------------------------------------- the splice loop

  /** The firing index after the occurrences among the first `p` entries are gone. */
  ghost function Shifted(es: seq<Entry>, g: int, p: nat, cb: Callback): int
    requires p <= |es|
  {
    var upTo := Min(g + 1, p);
    if upTo < 0 then g else g - (upTo - |Without(es[..upTo], cb)|)
  }

  lemma {:induction false} KeepsOthers(es: seq<Entry>, cb: Callback)
    requires forall e <- es :: e.cb != cb
    ensures Without(es, cb) == es
    decreases |es|
  {
    if es != [] {
      KeepsOthers(es[..|es|-1], cb);
    }
  }

  lemma NothingLeft(es: seq<Entry>, p: nat, cb: Callback)
    requires p == |es|
    ensures Without(es[..p], cb) + es[p..] == Without(es, cb)
  {
    assert es[..p] == es && es[p..] == [];
  }

  /** Scanning past other callbacks changes nothing. */
  lemma SkipCount(es: seq<Entry>, p: nat, q: nat, cb: Callback)
    requires p <= q <= |es|
    requires forall k :: p <= k < q ==> es[k].cb != cb
    ensures Without(es[..q], cb) == Without(es[..p], cb) + es[p..q]
  {
    assert es[..q] == es[..p] + es[p..q];
    WithoutConcat(es[..p], es[p..q], cb);
    KeepsOthers(es[p..q], cb);
  }

  lemma SkipRest(es: seq<Entry>, g: int, p: nat, q: nat, cb: Callback)
    requires p <= q <= |es|
    requires forall k :: p <= k < q ==> es[k].cb != cb
    ensures Without(es[..q], cb) + es[q..] == Without(es[..p], cb) + es[p..]
    ensures |Without(es[..q], cb)| == |Without(es[..p], cb)| + q - p
    ensures Shifted(es, g, q, cb) == Shifted(es, g, p, cb)
  {
    SkipCount(es, p, q, cb);
    assert es[p..] == es[p..q] + es[q..];
    if 0 <= Min(g + 1, p) {
      SkipCount(es, Min(g + 1, p), Min(g + 1, q), cb);
    }
  }

  /** A search that started behind the first `p` entries found the next occurrence, or none. */
  lemma NextOccurrence(es: seq<Entry>, g: int, p: nat, cb: Callback, now: seq<Entry>, index: nat, found: int)
    returns (q: nat)
    requires p <= |es| && now == Without(es[..p], cb) + es[p..] && index == |Without(es[..p], cb)|
    requires -1 <= found < |now| && (found >= 0 ==> index <= found && now[found].cb == cb)
    requires forall k :: index <= k < (if found == -1 then |now| else found) ==> now[k].cb != cb
    ensures p <= q <= |es| && (found == -1 ==> q == |es|) && now == Without(es[..q], cb) + es[q..]
    ensures found >= 0 ==> q < |es| && es[q].cb == cb && found == |Without(es[..q], cb)|
    ensures Shifted(es, g, q, cb) == Shifted(es, g, p, cb)
  {
    q := if found == -1 then |es| else p + found - index;
    forall k | p <= k < q ensures es[k].cb != cb {
      assert es[k] == now[index + k - p];
    }
    SkipRest(es, g, p, q, cb);
  }

  lemma FirstOccurrence(es: seq<Entry>, g: int, cb: Callback, found: int) returns (p: nat)
    requires -1 <= found < |es| && (found >= 0 ==> es[found].cb == cb)
    requires forall k :: 0 <= k < (if found == -1 then |es| else found) ==> es[k].cb != cb
    ensures p <= |es| && (found == -1 ==> p == |es|) && es == Without(es[..p], cb) + es[p..]
    ensures found >= 0 ==> p < |es| && es[p].cb == cb && found == |Without(es[..p], cb)|
    ensures Shifted(es, g, p, cb) == g
  {
    assert es == Without(es[..0], cb) + es[0..];
    p := NextOccurrence(es, g, 0, cb, es, 0, found);
  }

  /** Splicing out the occurrence at `p` moves the index exactly when it is at or before it. */
  lemma SplicePast(es: seq<Entry>, g: int, p: nat, cb: Callback)
    requires p < |es| && es[p].cb == cb
    ensures Without(es[..p + 1], cb) == Without(es[..p], cb)
    ensures
      var w, at := Without(es[..p], cb), Shifted(es, g, p, cb);
      && Shifted(es, g, p + 1, cb) == (if at >= |w| then at - 1 else at)
      && (w + es[p..])[..|w|] + (w + es[p..])[|w| + 1..] == w + es[p + 1..]
  {
    assert es[..p + 1][..p] == es[..p];
    if -1 <= g < p {
      assert es[..p] == es[..g + 1] + es[g + 1..p];
      WithoutConcat(es[..g + 1], es[g + 1..p], cb);
    } else if p <= g {
      assert Without(es[..p + 1], cb) == Without(es[..p], cb);
    }
  }

  /** One turn of the loop: splice at `index`, then search on from there. */
  lemma OneTurn(es: seq<Entry>, g: int, p: nat, cb: Callback, was: seq<Entry>, index: nat, now: seq<Entry>, found: int)
    returns (q: nat)
    requires p < |es| && es[p].cb == cb && index == |Without(es[..p], cb)|
    requires was == Without(es[..p], cb) + es[p..] && now == was[..index] + was[index + 1..]
    requires -1 <= found < |now| && (found >= 0 ==> index <= found && now[found].cb == cb)
    requires forall k :: index <= k < (if found == -1 then |now| else found) ==> now[k].cb != cb
    ensures p < q <= |es| && (found == -1 ==> q == |es|) && now == Without(es[..q], cb) + es[q..]
    ensures found >= 0 ==> q < |es| && es[q].cb == cb && found == |Without(es[..q], cb)|
    ensures var at := Shifted(es, g, p, cb);
      Shifted(es, g, q, cb) == if at >= index then at - 1 else at
  {
    SplicePast(es, g, p, cb);
    q := NextOccurrence(es, g, p + 1, cb, now, index, found);
  }

  lemma {:induction false} RemoveFromNothing(s: State, cbs: seq<Callback>)
    requires Valid(s) && s.list.None?
    ensures RemoveAll(s, cbs) == s
    decreases |cbs|
  {
    if cbs != [] {
      RemoveFromNothing(s, cbs[1..]);
    }
  }
}
