/** What a "memory" or "once memory" list does, told from the events of a run alone. */
module EventLaws {
  import opened Wrappers
  import opened Callbacks
  import opened OnceMemory
  import opened RemovedCalls

  /** Every function that was asked to be added, in order. */
  function Additions(evs: seq<Event>): seq<Callback> {
    if evs == [] then []
    else
      var e := evs[|evs|-1];
      Additions(evs[..|evs|-1]) + if e.Add? then e.cbs else []
  }

  /** Nobody disables the list, nor locks it before it was fired. */
  ghost predicate Working(evs: seq<Event>) {
    forall k :: 0 <= k < |evs| ==> !evs[k].Disable? && (evs[k].Lock? ==> FirstFire(evs[..k]).Some?)
  }

  /** Lists that remember their last fire and keep a function however often it is added. */
  predicate Remembering(o: Options) {
    o.memory && !o.stopOnFalse && !o.unique
  }

  /** The list takes additions, and has fired exactly if it was asked to. */
  ghost predicate Alive(s: State, added: seq<Callback>, first: Option<Args>) {
    && s.list.Some? && s.added == added
    && (s.fired <==> first.Some?) && (s.fired <==> s.memory.Some?)
  }

  lemma {:induction false} AdvanceAlive(s: State)
    requires s.firing && s.fired && s.firingStart == 0 && 0 <= s.firingIndex && s.opts.memory
    requires s.list.Some? && s.memory.Some? && s.firingLength == |s.list.value|
    ensures var r := Advance(s);
      r.list.Some? && r.memory.Some? && r.fired && r.added == s.added
    decreases StackSize(s), 0
  {
    if s.firingIndex >= s.firingLength {
      assert Advance(s) == Finish(s);
      if s.stack.Some? && s.stack.value != [] {
        var idle, args := s.(firing := false, stack := Some(s.stack.value[1..])), s.stack.value[0];
        assert Finish(s) == Start(idle, args);
        StartAlive(idle, args);
      }
    }
  }

  lemma {:induction false} StartAlive(s: State, data: Args)
    requires s.list.Some? && s.firingStart <= |s.list.value| && s.opts.memory
    ensures var r := Start(s, data);
      r.list.Some? && r.memory.Some? && r.fired && r.added == s.added
    decreases StackSize(s), 1
  {
    var head := s.(memory := Some(data), fired := true, firingIndex := s.firingStart, firingStart := 0,
                   firingLength := |s.list.value|, data := data, firing := true);
    assert Start(s, data) == Advance(head);
    AdvanceAlive(head);
  }

  lemma {:induction false} PushAllAdds(s: State, cbs: seq<Callback>)
    requires s.list.Some? && !s.opts.unique
    ensures PushAll(s, cbs).added == s.added + cbs
    decreases |cbs|
  {
    if cbs == [] {
      assert s.added + cbs == s.added;
    } else {
      PushAllAdds(Push(s, cbs[0]), cbs[1..]);
      assert s.added + [cbs[0]] + cbs[1..] == s.added + cbs;
    }
  }

  lemma {:induction false} RemoveAlive(s: State, cbs: seq<Callback>)
    requires Valid(s) && s.list.Some?
    ensures var r := RemoveAll(s, cbs);
      r.list.Some? && r.added == s.added && r.fired == s.fired && r.memory == s.memory && r.stack == s.stack
    decreases |cbs|
  {
    if cbs != [] {
      RemoveAlive(RemoveOne(s, cbs[0]), cbs[1..]);
    }
  }

  lemma StepAlive(s: State, e: Event, added: seq<Callback>, first: Option<Args>)
    requires Valid(s) && Remembering(s.opts) && Alive(s, added, first)
    requires !e.Disable? && (e.Lock? ==> first.Some?)
    ensures Alive(Step(s, e), added + if e.Add? then e.cbs else [], Later(first, e))
  {
    hide Advance, Finish, Start, Registered;
    assert added + [] == added;
    match e
    case Add(cbs) =>
      PushAllAdds(s, cbs);
      if !s.firing && s.memory.Some? {
        StartAlive(PushAll(s, cbs).(firingStart := |s.list.value|), s.memory.value);
      }
    case Remove(cbs) => RemoveAlive(s, cbs);
    case Fire(args) => if !(s.fired && s.stack.None?) && !s.firing { StartAlive(s, args); }
    case Empty =>
    case Lock =>
    case Return(result) => if s.firing { AdvanceAlive(s.(firingIndex := s.firingIndex + 1)); }
  }

  /** In every run in which nobody disables the list, nor locks it before it was fired: the additions
      are exactly the functions of all `add` events, and the list has fired exactly if some event
      fired it. */
  lemma {:induction false} WorkingRun(opts: Options, evs: seq<Event>)
    requires Remembering(opts) && Working(evs)
    ensures Alive(Run(opts, evs), Additions(evs), FirstFire(evs))
    decreases |evs|
  {
    hide Step, Valid, Alive;
    if evs == [] {
      NewAlive(opts);
    } else {
      var before, e := evs[..|evs|-1], evs[|evs|-1];
      WorkingBefore(evs);
      WorkingRun(opts, before);
      StepAlive(Run(opts, before), e, Additions(before), FirstFire(before));
    }
  }

  lemma NewAlive(opts: Options)
    ensures Alive(Init(opts), [], None)
  {
  }

  lemma WorkingBefore(evs: seq<Event>)
    requires evs != [] && Working(evs)
    ensures var before, e := evs[..|evs|-1], evs[|evs|-1];
      Working(before) && !e.Disable? && (e.Lock? ==> FirstFire(before).Some?)
  {
    hide FirstFire;
    var before := evs[..|evs|-1];
    assert evs[..|evs|-1] == before;
    forall k | 0 <= k < |before| ensures !before[k].Disable? && (before[k].Lock? ==> FirstFire(before[..k]).Some?) {
      assert before[..k] == evs[..k] && before[k] == evs[k];
    }
  }

  // ---------------------------------------------------------------- removals

  /** A `remove` after the addition names its function, or an `empty` comes after it. */
  ghost predicate Named(evs: seq<Event>, t: nat) {
    exists k :: 0 <= k < |evs| && Names(evs, k, t)
  }

  ghost predicate Names(evs: seq<Event>, k: nat, t: nat)
    requires k < |evs|
  {
    && t < |Additions(evs[..k])|
    && (evs[k].Empty? || (evs[k].Remove? && Additions(evs[..k])[t] in evs[k].cbs))
  }

  lemma NamedBefore(evs: seq<Event>, t: nat)
    requires evs != [] && Named(evs[..|evs|-1], t)
    ensures Named(evs, t)
  {
    hide Additions;
    var before := evs[..|evs|-1];
    var k :| 0 <= k < |before| && Names(before, k, t);
    assert before[..k] == evs[..k] && before[k] == evs[k];
    assert Names(evs, k, t);
  }

  /** Nothing is removed but what the events name. */
  lemma {:induction false} RemovedIsNamed(opts: Options, evs: seq<Event>, t: nat)
    requires Remembering(opts) && Working(evs) && t in Run(opts, evs).removed
    ensures Named(evs, t)
    decreases |evs|
  {
    hide Step, Valid, Alive, Additions, FirstFire;
    if evs != [] {
      var before, e := evs[..|evs|-1], evs[|evs|-1];
      var s := Run(opts, before);
      WorkingBefore(evs);
      if t in s.removed {
        RemovedIsNamed(opts, before, t);
        NamedBefore(evs, t);
      } else {
        WorkingRun(opts, before);
        NewlyRemoved(s, e, Additions(before), FirstFire(before), t);
        assert Names(evs, |before|, t);
      }
    }
  }

  lemma NewlyRemoved(s: State, e: Event, added: seq<Callback>, first: Option<Args>, t: nat)
    requires Valid(s) && Alive(s, added, first) && t !in s.removed && t in Step(s, e).removed
    requires !e.Disable? && (e.Lock? ==> first.Some?)
    ensures t < |added| && (e.Empty? || (e.Remove? && added[t] in e.cbs))
  {
    RemovedOnRequest(s, e, t);
    if e.Empty? {
      assert t in AllSerials(s);
    }
  }

  // ---------------------------------------------------------------- callbacks return

  function Returns(n: nat): seq<Event> {
    if n == 0 then [] else Returns(n - 1) + [Return(true)]
  }

  lemma {:induction false} FewPending(es: seq<Entry>, n: nat)
    requires Increasing(es) && forall k :: 0 <= k < |es| ==> es[k].serial < n
    ensures |es| <= n
    decreases |es|
  {
    if es != [] {
      var last := |es| - 1;
      FewPending(es[..last], es[last].serial);
    }
  }

  /** Each return calls the next pending entry, or ends the firing of a list without a stack. */
  lemma ReturnShortens(s: State)
    requires Valid(s) && s.stack.None? && s.firing && (s.list.Some? ==> s.firingIndex < |s.list.value|)
    ensures var r, p := Step(s, Return(true)), OnceMemory.Pending(s);
      && r.stack.None?
      && (if p == [] then !r.firing
          else r.firing && OnceMemory.Pending(r) == p[1..] && r.list.Some? && r.firingIndex < |r.list.value|)
  {
    var next := s.(firingIndex := s.firingIndex + 1);
    if s.list.None? || next.firingIndex >= s.firingLength {
      assert Advance(next) == Finish(next);
    }
  }

  lemma InBounds(opts: Options, evs: seq<Event>)
    requires IsOnceMemory(opts) && EmptiesSafely(opts, evs)
    ensures var s := Run(opts, evs);
      s.stack.None? && (s.firing && s.list.Some? ==> s.firingIndex < |s.list.value|)
  {
    RunKeeps(opts, evs);
  }

  lemma {:induction false} ReturnsEnd(opts: Options, evs: seq<Event>, n: nat)
    requires IsOnceMemory(opts) && EmptiesSafely(opts, evs)
    ensures var s, r := Run(opts, evs), Run(opts, evs + Returns(n));
      && r.stack.None? && (r.firing && r.list.Some? ==> r.firingIndex < |r.list.value|)
      && (r.firing ==> s.firing && |OnceMemory.Pending(r)| + n <= |OnceMemory.Pending(s)|)
    decreases n
  {
    hide Step, Valid, OnceMemory.Pending, Run, EmptiesSafely;
    if n == 0 {
      assert evs + Returns(0) == evs;
      InBounds(opts, evs);
    } else {
      var before := evs + Returns(n - 1);
      assert evs + Returns(n) == before + [Return(true)];
      ReturnsEnd(opts, evs, n - 1);
      RunOneMore(opts, before, Return(true));
      if Run(opts, before).firing {
        ReturnShortens(Run(opts, before));
      } else {
        IdleReturns(Run(opts, before));
      }
    }
  }

  lemma IdleReturns(s: State)
    requires Valid(s) && !s.firing
    ensures Step(s, Return(true)) == s
  {
  }

  lemma ReturnIsHarmless(opts: Options, evs: seq<Event>)
    ensures var all := evs + [Return(true)];
      && (EmptiesSafely(opts, evs) ==> EmptiesSafely(opts, all)) && (Working(evs) ==> Working(all))
      && Additions(all) == Additions(evs) && FirstFire(all) == FirstFire(evs)
  {
    var all := evs + [Return(true)];
    assert all[..|evs|] == evs && Additions(evs) + [] == Additions(evs);
    hide Run, FirstFire, EmptyIsSafe;
    if EmptiesSafely(opts, evs) {
      forall k | 0 <= k < |all| && all[k].Empty? ensures EmptyIsSafe(Run(opts, all[..k]), FirstFire(all[..k])) {
        assert all[..k] == evs[..k] && all[k] == evs[k];
      }
    }
    if Working(evs) {
      forall k | 0 <= k < |all| ensures !all[k].Disable? && (all[k].Lock? ==> FirstFire(all[..k]).Some?) {
        assert k < |evs| ==> all[..k] == evs[..k] && all[k] == evs[k];
      }
    }
  }

  lemma {:induction false} ReturnsAreHarmless(opts: Options, evs: seq<Event>, n: nat)
    ensures var all := evs + Returns(n);
      && (EmptiesSafely(opts, evs) ==> EmptiesSafely(opts, all)) && (Working(evs) ==> Working(all))
      && Additions(all) == Additions(evs) && FirstFire(all) == FirstFire(evs)
    decreases n
  {
    hide EmptiesSafely, Working, Additions, FirstFire;
    if n == 0 {
      assert evs + Returns(0) == evs;
    } else {
      var before := evs + Returns(n - 1);
      assert evs + Returns(n) == before + [Return(true)];
      ReturnsAreHarmless(opts, evs, n - 1);
      ReturnIsHarmless(opts, before);
    }
  }

  /** A "once memory" list, told from the events: if it was fired, nobody disabled it, nor locked it
      before, and every `empty` was harmless, then once its callbacks have returned it has called
      every function of every `add`, before, during or after the firing, with the first fire's
      arguments, in order and exactly once, but for those a later `remove` names or a later `empty`
      drops. */
  lemma {:induction false} OnceCallsAll(opts: Options, evs: seq<Event>)
    requires IsOnceMemory(opts) && !opts.unique && EmptiesSafely(opts, evs) && Working(evs) && FirstFire(evs).Some?
    ensures var added, args := Additions(evs), FirstFire(evs).value;
      var calls := Run(opts, evs + Returns(|added| + 1)).calls;
      && InOrder(calls)
      && (forall t :: 0 <= t < |added| && !Named(evs, t) ==> Call(Entry(added[t], t), args) in calls)
      && (forall c <- calls ::
            c.entry.serial < |added| && c == Call(Entry(added[c.entry.serial], c.entry.serial), args))
  {
    hide Run, Additions, FirstFire, EmptiesSafely, Working, Valid, Alive, Named;
    var added, args := Additions(evs), FirstFire(evs).value;
    var all := evs + Returns(|added| + 1);
    ReturnsAreHarmless(opts, evs, |added| + 1);
    WorkingRun(opts, evs);
    WorkingRun(opts, all);
    ReturnsEnd(opts, evs, |added| + 1);
    PendingIsShort(opts, evs);
    EachAdditionOnce(opts, all);
    AliveFacts(Run(opts, evs), added, FirstFire(evs));
    AliveFacts(Run(opts, all), added, FirstFire(evs));
    var r := Run(opts, all);
    forall t | 0 <= t < |added| && !Named(evs, t) ensures Call(Entry(added[t], t), args) in r.calls {
      if t in r.removed {
        RemovedIsNamed(opts, all, t);
        NamedWithoutReturns(evs, |added| + 1, t);
      }
      assert WasCalled(r.calls, t);
      var i :| 0 <= i < |r.calls| && r.calls[i].entry.serial == t;
      assert r.calls[i] == Call(Entry(added[t], t), args);
    }
    forall c <- r.calls
      ensures c.entry.serial < |added| && c == Call(Entry(added[c.entry.serial], c.entry.serial), args)
    {
      var i :| 0 <= i < |r.calls| && r.calls[i] == c;
      assert r.calls[i] == c;
    }
  }

  lemma AliveFacts(s: State, added: seq<Callback>, first: Option<Args>)
    requires Alive(s, added, first)
    ensures s.added == added && (s.fired <==> first.Some?)
  {
  }

  lemma PendingIsShort(opts: Options, evs: seq<Event>)
    requires IsOnceMemory(opts) && EmptiesSafely(opts, evs)
    ensures |OnceMemory.Pending(Run(opts, evs))| <= |Run(opts, evs).added|
  {
    RunKeeps(opts, evs);
    var s := Run(opts, evs);
    hide Run;
    FewPending(OnceMemory.Pending(s), |s.added|);
  }

  lemma {:induction false} NamedWithoutReturns(evs: seq<Event>, n: nat, t: nat)
    requires Named(evs + Returns(n), t)
    ensures Named(evs, t)
    decreases n
  {
    if n == 0 {
      assert evs + Returns(0) == evs;
    } else {
      hide Additions;
      var before, all := evs + Returns(n - 1), evs + Returns(n);
      assert all == before + [Return(true)];
      var k :| 0 <= k < |all| && Names(all, k, t);
      assert k < |before|;
      assert all[..k] == before[..k] && all[k] == before[k];
      assert Names(before, k, t);
      NamedWithoutReturns(evs, n - 1, t);
    }
  }
}
