/** What a "once memory" list promises over every run. */
module OnceMemory {
  import opened Wrappers
  import opened Callbacks

  /** The options of a Deferred's done and fail lists; `unique` is free. */
  predicate IsOnceMemory(o: Options) {
    o.once && o.memory && !o.stopOnFalse
  }

  /** The entries still to be called by the running firing, or by the first one. */
  ghost function Pending(s: State): seq<Entry> {
    if s.list.None? then []
    else if !s.firing then s.list.value
    else if 0 <= s.firingIndex + 1 <= |s.list.value| then s.list.value[s.firingIndex + 1..]
    else []
  }

  ghost predicate Increasing(es: seq<Entry>) {
    forall i, j :: 0 <= i < j < |es| ==> es[i].serial < es[j].serial
  }

  ghost predicate WasCalled(calls: seq<Call>, t: nat) {
    exists i :: 0 <= i < |calls| && calls[i].entry.serial == t
  }

  ghost predicate IsPending(pending: seq<Entry>, t: nat) {
    exists k :: 0 <= k < |pending| && pending[k].serial == t
  }

  /** What the first fire is after one more event. */
  function Later(first: Option<Args>, e: Event): Option<Args> {
    if first.None? && e.Fire? then Some(e.args) else first
  }

  /** The first `fire` of a run. */
  function FirstFire(evs: seq<Event>): Option<Args> {
    if evs == [] then None else Later(FirstFire(evs[..|evs|-1]), evs[|evs|-1])
  }

  ghost predicate InOrder(calls: seq<Call>) {
    forall i, j :: 0 <= i < j < |calls| ==> calls[i].entry.serial < calls[j].entry.serial
  }

  ghost predicate Faithful(calls: seq<Call>, added: seq<Callback>, first: Option<Args>) {
    forall i :: 0 <= i < |calls| ==>
      && calls[i].entry.serial < |added|
      && calls[i].entry.cb == added[calls[i].entry.serial]
      && first == Some(calls[i].args)
  }

  /** Calls come in the order of addition, each with the first fire's arguments, and what is
      pending comes after everything called. */
  ghost predicate Ordered(calls: seq<Call>, pending: seq<Entry>, added: seq<Callback>, first: Option<Args>) {
    && InOrder(calls)
    && Increasing(pending)
    && (forall i, k :: 0 <= i < |calls| && 0 <= k < |pending| ==> calls[i].entry.serial < pending[k].serial)
    && (forall k :: 0 <= k < |pending| ==> pending[k].serial < |added|)
    && Faithful(calls, added, first)
  }

  /** No addition is lost, and only additions are removed. */
  ghost predicate Accounted(calls: seq<Call>, pending: seq<Entry>, count: nat, removed: set<nat>) {
    && (forall t: nat :: t < count ==> t in removed || WasCalled(calls, t) || IsPending(pending, t))
    && (forall t :: t in removed ==> t < count)
  }

  ghost predicate History(s: State, pending: seq<Entry>, first: Option<Args>) {
    && Ordered(s.calls, pending, s.added, first)
    && Accounted(s.calls, pending, |s.added|, s.removed)
  }

  ghost predicate Inv(s: State, first: Option<Args>) {
    && Valid(s)
    && IsOnceMemory(s.opts)
    && s.stack.None?
    && (s.fired ==> first.Some?)
    && (s.firing ==> first == Some(s.data))
    && (s.firing && s.list.Some? ==> s.firingIndex < |s.list.value|)
    && (s.fired && !s.firing && s.list.Some? ==> s.list.value == [])
    && (s.fired && !s.firing && s.list.Some? ==> s.memory.Some?)
    && (s.memory.Some? ==> s.memory == first)
    && (!s.fired ==> s.memory.None? && s.calls == [])
    && (!s.fired && s.list.Some? ==> first.None?)
    && History(s, Pending(s), first)
  }

  // ---------------------------------------------------------------- the steps keep it

  /** Calling the first pending entry. */
  lemma CallFirst(s: State, pending: seq<Entry>, data: Args)
    requires History(s, pending, Some(data)) && pending != []
    requires pending[0].serial < |s.added| && s.added[pending[0].serial] == pending[0].cb
    ensures History(s.(calls := s.calls + [Call(pending[0], data)]), pending[1..], Some(data))
  {
    var calls := s.calls + [Call(pending[0], data)];
    forall t: nat | t < |s.added| ensures t in s.removed || WasCalled(calls, t) || IsPending(pending[1..], t) {
      if WasCalled(s.calls, t) {
        var i :| 0 <= i < |s.calls| && s.calls[i].entry.serial == t;
        assert calls[i].entry.serial == t;
      } else if IsPending(pending, t) {
        var k :| 0 <= k < |pending| && pending[k].serial == t;
        if k == 0 {
          assert calls[|s.calls|].entry.serial == t;
        } else {
          assert pending[1..][k - 1].serial == t;
        }
      }
    }
  }

  /** Reaching the loop head calls the first pending entry, or ends the firing when none is left. */
  lemma AdvanceKeeps(s: State, pending: seq<Entry>)
    requires s.firing && s.fired && s.firingStart == 0 && Registered(s)
    requires IsOnceMemory(s.opts) && s.stack.None? && 0 <= s.firingIndex
    requires s.list.Some? ==> s.firingLength == |s.list.value| && s.firingIndex <= |s.list.value|
    requires s.memory.Some? ==> s.memory == Some(s.data)
    requires pending == if s.list.Some? then s.list.value[s.firingIndex..] else []
    requires History(s, pending, Some(s.data))
    ensures Inv(Advance(s), Some(s.data))
  {
    var r := Advance(s);
    if s.list.Some? && s.firingIndex < s.firingLength {
      assert pending[0] == s.list.value[s.firingIndex];
      CallFirst(s, pending, s.data);
      assert Pending(r) == pending[1..];
    } else {
      assert r == Finish(s);
      assert Pending(r) == [] == pending;
    }
  }

  lemma ReturnKeeps(s: State, result: bool, first: Option<Args>)
    requires Inv(s, first) && s.firing
    ensures Inv(ReturnFrom(s, result), first)
  {
    AdvanceKeeps(s.(firingIndex := s.firingIndex + 1), Pending(s));
  }

  // ---- add

  /** Pushing appends fresh entries, numbered in order, to the list and to the additions. */
  lemma {:induction false} PushAllAppends(s: State, cbs: seq<Callback>)
    requires s.list.Some?
    ensures var r := PushAll(s, cbs);
      && s.list.value <= r.list.value && s.added <= r.added
      && |r.list.value| - |s.list.value| == |r.added| - |s.added|
      && (forall k :: |s.list.value| <= k < |r.list.value| ==>
            r.list.value[k].serial == |s.added| + k - |s.list.value|)
    decreases |cbs|
  {
    if cbs != [] {
      PushAllAppends(Push(s, cbs[0]), cbs[1..]);
    }
  }

  /** Fresh entries go behind everything called and everything pending. */
  lemma AppendKeeps(s: State, p: seq<Entry>, q: seq<Entry>, added: seq<Callback>, first: Option<Args>)
    requires History(s, p, first)
    requires p <= q && s.added <= added && |q| - |p| == |added| - |s.added|
    requires forall k :: |p| <= k < |q| ==> q[k].serial == |s.added| + k - |p|
    ensures History(s.(added := added), q, first)
  {
    assert forall k :: 0 <= k < |p| ==> q[k] == p[k];
    forall t: nat | t < |added| ensures t in s.removed || WasCalled(s.calls, t) || IsPending(q, t) {
      if t < |s.added| {
        if IsPending(p, t) {
          var k :| 0 <= k < |p| && p[k].serial == t;
          assert q[k].serial == t;
        }
      } else {
        assert q[|p| + t - |s.added|].serial == t;
      }
    }
  }

  lemma PushKeeps(s: State, cbs: seq<Callback>, first: Option<Args>)
    requires Inv(s, first) && s.list.Some?
    ensures var r := PushAll(s, cbs);
      var cut := if s.firing then s.firingIndex + 1 else 0;
      cut <= |r.list.value| && History(r, r.list.value[cut..], first)
  {
    hide Ordered, Accounted;
    PushAllAppends(s, cbs);
    var r := PushAll(s, cbs);
    var cut := if s.firing then s.firingIndex + 1 else 0;
    assert Pending(s) == s.list.value[cut..];
    AppendKeeps(s, Pending(s), r.list.value[cut..], r.added, first);
  }

  lemma AddKeeps(s: State, cbs: seq<Callback>, first: Option<Args>)
    requires Inv(s, first)
    ensures Inv(AddAll(s, cbs), first)
  {
    hide Ordered, Accounted;
    if s.list.Some? {
      var pushed := PushAll(s, cbs);
      PushKeeps(s, cbs, first);
      if !s.firing && s.memory.Some? {
        assert s.list.value == [];
        StartKeeps(pushed, s.memory.value);
      }
    }
  }

  /** A firing that starts on an idle list with nothing called from it. */
  lemma StartKeeps(s: State, data: Args)
    requires !s.firing && s.firingStart == 0 && s.list.Some? && s.stack.None?
    requires Registered(s) && IsOnceMemory(s.opts)
    requires History(s, s.list.value, Some(data))
    ensures Inv(Start(s, data), Some(data))
  {
    AdvanceKeeps(s.(memory := Some(data), fired := true, firingIndex := 0, firingStart := 0,
                    firingLength := |s.list.value|, data := data, firing := true), s.list.value);
  }

  lemma FireKeeps(s: State, args: Args, first: Option<Args>)
    requires Inv(s, first)
    ensures Inv(FireWith(s, args), if first.Some? then first else Some(args))
  {
    if s.list.Some? && !s.fired {
      StartKeeps(s, args);
    }
  }

  // ---- remove

  lemma {:induction false} WithoutConcat(a: seq<Entry>, b: seq<Entry>, cb: Callback)
    ensures Without(a + b, cb) == Without(a, cb) + Without(b, cb)
    decreases |b|
  {
    if b == [] {
      assert a + b == a;
    } else {
      assert (a + b)[..|a + b| - 1] == a + b[..|b|-1];
      WithoutConcat(a, b[..|b|-1], cb);
    }
  }

  lemma {:induction false} WithoutIncreasing(es: seq<Entry>, cb: Callback)
    requires Increasing(es)
    ensures Increasing(Without(es, cb))
    decreases |es|
  {
    if es != [] {
      WithoutIncreasing(es[..|es|-1], cb);
      WithoutMembers(es[..|es|-1], cb);
      assert forall e <- Without(es[..|es|-1], cb) :: e.serial < es[|es|-1].serial;
    }
  }

  /** The index arithmetic of `remove` never skips or repeats a survivor: what is still to be
      called is what was still to be called, less the removed callback. */
  lemma RemoveKeepsPlace(s: State, cb: Callback)
    requires Valid(s)
    ensures Pending(RemoveOne(s, cb)) == Without(Pending(s), cb)
    ensures var r := RemoveOne(s, cb);
      s.firing && s.list.Some? && s.firingIndex < |s.list.value| ==> r.firingIndex < |r.list.value|
  {
    if s.list.Some? && s.firing && s.firingIndex < |s.list.value| {
      var es, cut := s.list.value, s.firingIndex + 1;
      assert es == es[..cut] + es[cut..];
      WithoutConcat(es[..cut], es[cut..], cb);
      assert Without(es, cb)[|Without(es[..cut], cb)|..] == Without(es[cut..], cb);
    } else if s.list.Some? && s.firing {
      assert s.list.value[..|s.list.value|] == s.list.value;
    }
  }

  /** Dropping a callback from the pending entries, if what is dropped counts as removed. */
  lemma FilterKeeps(s: State, pending: seq<Entry>, cb: Callback, removed: set<nat>, first: Option<Args>)
    requires History(s, pending, first)
    requires s.removed <= removed && forall t <- removed :: t < |s.added|
    requires forall e <- pending :: e.cb == cb ==> e.serial in removed
    ensures History(s.(removed := removed), Without(pending, cb), first)
  {
    var r := Without(pending, cb);
    WithoutIncreasing(pending, cb);
    WithoutMembers(pending, cb);
    assert forall k :: 0 <= k < |r| ==> r[k] in r && r[k] in pending;
    forall t: nat | t < |s.added| ensures t in removed || WasCalled(s.calls, t) || IsPending(r, t) {
      if IsPending(pending, t) {
        var k :| 0 <= k < |pending| && pending[k].serial == t;
        assert pending[k] in pending;
      }
    }
  }

  lemma RemoveOneKeeps(s: State, cb: Callback, first: Option<Args>)
    requires Inv(s, first)
    ensures Inv(RemoveOne(s, cb), first)
  {
    RemoveKeepsPlace(s, cb);
    FilterKeeps(s, Pending(s), cb, RemoveOne(s, cb).removed, first);
  }

  lemma {:induction false} RemoveKeeps(s: State, cbs: seq<Callback>, first: Option<Args>)
    requires Inv(s, first)
    ensures Inv(RemoveAll(s, cbs), first)
    decreases |cbs|
  {
    if cbs != [] {
      RemoveOneKeeps(s, cbs[0], first);
      RemoveKeeps(RemoveOne(s, cbs[0]), cbs[1..], first);
    }
  }

  // ---- empty, disable, lock

  /** When `empty` is harmless: no callback of this firing is still in front of the next index,
      or, outside a firing, the list is not disabled, or nobody has asked it to fire yet. */
  predicate EmptyIsSafe(s: State, first: Option<Args>) {
    if s.firing then s.firingIndex < 0 else s.list.Some? || first.None?
  }

  /** Dropping everything pending, if all of that counts as removed. */
  lemma DropKeeps(s: State, pending: seq<Entry>, removed: set<nat>, first: Option<Args>)
    requires History(s, pending, first)
    requires s.removed <= removed && forall t <- removed :: t < |s.added|
    requires forall e <- pending :: e.serial in removed
    ensures History(s.(removed := removed), [], first)
  {
    forall t: nat | t < |s.added| ensures t in removed || WasCalled(s.calls, t) {
      if IsPending(pending, t) {
        var k :| 0 <= k < |pending| && pending[k].serial == t;
        assert pending[k] in pending;
      }
    }
  }

  lemma DropListKeeps(s: State, first: Option<Args>)
    requires Inv(s, first)
    ensures History(s.(removed := s.removed + AllSerials(s)), [], first)
  {
    DropKeeps(s, Pending(s), s.removed + AllSerials(s), first);
  }

  lemma DisableKeeps(s: State, first: Option<Args>)
    requires Inv(s, first)
    ensures Inv(DisableNow(s), first)
  {
    DropListKeeps(s, first);
  }

  lemma EmptyKeeps(s: State, first: Option<Args>)
    requires Inv(s, first) && EmptyIsSafe(s, first)
    ensures Inv(EmptyList(s), first)
  {
    DropListKeeps(s, first);
  }

  // ---------------------------------------------------------------- whole runs

  /** Every `empty` of the run is harmless. */
  ghost predicate EmptiesSafely(opts: Options, evs: seq<Event>) {
    forall k :: 0 <= k < |evs| && evs[k].Empty? ==> EmptyIsSafe(Run(opts, evs[..k]), FirstFire(evs[..k]))
  }

  lemma StepKeeps(s: State, e: Event, first: Option<Args>)
    requires Inv(s, first) && (e.Empty? ==> EmptyIsSafe(s, first))
    ensures Inv(Step(s, e), Later(first, e))
  {
    match e
    case Add(cbs) => AddKeeps(s, cbs, first);
    case Remove(cbs) => RemoveKeeps(s, cbs, first);
    case Fire(args) => FireKeeps(s, args, first);
    case Empty => EmptyKeeps(s, first);
    case Disable => DisableKeeps(s, first);
    case Lock => DisableKeeps(s, first);
    case Return(result) => if s.firing { ReturnKeeps(s, result, first); }
  }

  lemma {:induction false} RunKeeps(opts: Options, evs: seq<Event>)
    requires IsOnceMemory(opts) && EmptiesSafely(opts, evs)
    ensures Inv(Run(opts, evs), FirstFire(evs))
    decreases |evs|
  {
    if evs != [] {
      var before := evs[..|evs|-1];
      forall k | 0 <= k < |before| && before[k].Empty?
        ensures EmptyIsSafe(Run(opts, before[..k]), FirstFire(before[..k]))
      {
        assert evs[..k] == before[..k];
      }
      RunKeeps(opts, before);
      StepKeeps(Run(opts, before), evs[|evs|-1], FirstFire(before));
    }
  }

  /** In every run of a "once memory" list each addition is called at most once, in order of
      addition, with the first fire's arguments; and once a firing is over, every addition not
      removed has been called, whether it came before, during or after the firing. */
  lemma {:induction false} EachAdditionOnce(opts: Options, evs: seq<Event>)
    requires IsOnceMemory(opts) && EmptiesSafely(opts, evs)
    ensures var s := Run(opts, evs);
      && InOrder(s.calls)
      && Faithful(s.calls, s.added, FirstFire(evs))
      && (s.fired && !s.firing ==>
            forall t: nat :: t < |s.added| && t !in s.removed ==> WasCalled(s.calls, t))
      && (!s.fired ==> s.calls == [])
  {
    RunKeeps(opts, evs);
  }

  /** Later fires do nothing, in any state a run of a "once" list can reach. */
  lemma {:induction false} LaterFiresDoNothing(opts: Options, evs: seq<Event>, args: Args)
    requires opts.once && Run(opts, evs).fired
    ensures Step(Run(opts, evs), Fire(args)) == Run(opts, evs)
  {
    RunHasNoStack(opts, evs);
  }

  /** A "once" list never has a stack. */
  lemma {:induction false} RunHasNoStack(opts: Options, evs: seq<Event>)
    requires opts.once
    ensures Run(opts, evs).stack.None?
    decreases |evs|
  {
    if evs != [] {
      RunHasNoStack(opts, evs[..|evs|-1]);
      StepHasNoStack(Run(opts, evs[..|evs|-1]), evs[|evs|-1]);
    }
  }

  lemma StepHasNoStack(s: State, e: Event)
    requires Valid(s) && s.stack.None?
    ensures Step(s, e).stack.None?
  {
    match e
    case Add(cbs) =>
      if s.list.Some? && !s.firing && s.memory.Some? {
        StartHasNoStack(PushAll(s, cbs).(firingStart := |s.list.value|), s.memory.value);
      }
    case Remove(cbs) => RemoveHasNoStack(s, cbs);
    case Fire(args) =>
      if s.list.Some? && !s.fired {
        StartHasNoStack(s, args);
      }
    case Empty =>
    case Disable =>
    case Lock =>
    case Return(result) => if s.firing { ReturnHasNoStack(s, result); }
  }

  lemma StartHasNoStack(s: State, data: Args)
    requires s.list.Some? && s.firingStart <= |s.list.value| && s.stack.None?
    ensures Start(s, data).stack.None?
  {
    var head := s.(memory := if s.opts.memory then Some(data) else None, fired := true,
                   firingIndex := s.firingStart, firingStart := 0, firingLength := |s.list.value|,
                   data := data, firing := true);
    assert Start(s, data) == Advance(head);
    assert Advance(head).stack == head.stack || Advance(head) == Finish(head);
  }

  lemma ReturnHasNoStack(s: State, result: bool)
    requires Valid(s) && s.firing && s.stack.None?
    ensures ReturnFrom(s, result).stack.None?
  {
    var head := s.(firingIndex := s.firingIndex + 1);
    assert Advance(head).stack == head.stack || Advance(head) == Finish(head);
  }

  lemma {:induction false} RemoveHasNoStack(s: State, cbs: seq<Callback>)
    requires Valid(s) && s.stack.None?
    ensures RemoveAll(s, cbs).stack.None?
    decreases |cbs|
  {
    if cbs != [] {
      RemoveHasNoStack(RemoveOne(s, cbs[0]), cbs[1..]);
    }
  }

  /** The guard on `empty` is exact. Once the list has fired, an addition that follows an `empty`
      is lost, neither called nor removed, precisely when that `empty` was not harmless. */
  lemma {:induction false} EmptyLosesNextAddition(opts: Options, evs: seq<Event>, cb: Callback)
    requires IsOnceMemory(opts) && EmptiesSafely(opts, evs)
    requires Run(opts, evs).fired
    ensures var s := Run(opts, evs);
      var r := Step(Step(Step(s, Empty), Add([cb])), Return(true));
      var t := |s.added|;
      && |r.added| == t + 1 && r.added[t] == cb && t !in r.removed
      && (WasCalled(r.calls, t) <==> EmptyIsSafe(s, FirstFire(evs)))
      && (!EmptyIsSafe(s, FirstFire(evs)) ==> !r.firing)
  {
    RunKeeps(opts, evs);
    EmptyThenAdd(Run(opts, evs), cb, FirstFire(evs));
  }

  /** Before that, an `empty` followed by an addition and a fire leads to a call that does not
      have the first fire's arguments, for some fire, precisely when that `empty` was not harmless:
      it revived a disabled list that had already refused a fire. */
  lemma {:induction false} EmptyForgetsFirstFire(opts: Options, evs: seq<Event>, cb: Callback)
    requires IsOnceMemory(opts) && EmptiesSafely(opts, evs)
    requires !Run(opts, evs).fired
    ensures var s, first := Run(opts, evs), FirstFire(evs);
      && (forall args: Args :: EmptyAddFire(s, cb, args).calls == [Call(Entry(cb, |s.added|), args)])
      && ((forall args: Args ::
             Faithful(EmptyAddFire(s, cb, args).calls, s.added + [cb], Later(first, Fire(args))))
          <==> EmptyIsSafe(s, first))
  {
    hide Inv, Faithful, EmptyAddFire;
    RunKeeps(opts, evs);
    var s, first := Run(opts, evs), FirstFire(evs);
    hide Run, FirstFire;
    BeforeFiring(s, first);
    forall args: Args ensures EmptyAddFire(s, cb, args).calls == [Call(Entry(cb, |s.added|), args)] {
      AddThenFire(s, cb, args);
    }
    if EmptyIsSafe(s, first) {
      assert first.None?;
    } else {
      var calls := EmptyAddFire(s, cb, first.value + 1).calls;
      assert calls[0].args != first.value;
      NotFaithful(calls, s.added + [cb], Later(first, Fire(first.value + 1)));
    }
    forall args: Args ensures first.None? ==>
      Faithful(EmptyAddFire(s, cb, args).calls, s.added + [cb], Later(first, Fire(args)))
    {
      OneFaithful(s.added, cb, args);
    }
  }

  lemma BeforeFiring(s: State, first: Option<Args>)
    requires Inv(s, first) && !s.fired
    ensures Valid(s) && !s.firing && s.memory.None? && s.calls == [] && (s.list.Some? ==> first.None?)
  {
  }

  lemma NotFaithful(calls: seq<Call>, added: seq<Callback>, first: Option<Args>)
    requires calls != [] && first != Some(calls[0].args)
    ensures !Faithful(calls, added, first)
  {
  }

  lemma OneFaithful(added: seq<Callback>, cb: Callback, args: Args)
    ensures Faithful([Call(Entry(cb, |added|), args)], added + [cb], Some(args))
  {
  }

  lemma AddThenFire(s: State, cb: Callback, args: Args)
    requires Valid(s) && !s.fired && s.memory.None? && s.calls == []
    ensures EmptyAddFire(s, cb, args).calls == [Call(Entry(cb, |s.added|), args)]
  {
    PushOnEmpty(EmptyList(s), cb);
    var one := Step(Step(s, Empty), Add([cb]));
    assert one == PushAll(EmptyList(s), [cb]);
    assert EmptyAddFire(s, cb, args) == Start(one, args);
  }

  function EmptyAddFire(s: State, cb: Callback, args: Args): State
    requires Valid(s)
  {
    Step(Step(Step(s, Empty), Add([cb])), Fire(args))
  }

  lemma EmptyThenAdd(s: State, cb: Callback, first: Option<Args>)
    requires Inv(s, first) && s.fired
    ensures var r := Step(Step(Step(s, Empty), Add([cb])), Return(true));
      var t := |s.added|;
      && |r.added| == t + 1 && r.added[t] == cb && t !in r.removed
      && (WasCalled(r.calls, t) <==> EmptyIsSafe(s, first))
      && (!EmptyIsSafe(s, first) ==> !r.firing)
  {
    var r := Step(Step(Step(s, Empty), Add([cb])), Return(true));
    CallsAfterEmpty(s, cb, first);
    assert EmptyIsSafe(s, first) ==> r.calls[|s.calls|].entry.serial == |s.added|;
    assert !WasCalled(s.calls, |s.added|);
  }

  lemma CallsAfterEmpty(s: State, cb: Callback, first: Option<Args>)
    requires Inv(s, first) && s.fired
    ensures var r := Step(Step(Step(s, Empty), Add([cb])), Return(true));
      && r.added == s.added + [cb] && r.removed == s.removed + AllSerials(s)
      && (EmptyIsSafe(s, first) ==> exists c :: r.calls == s.calls + [c] && c.entry.serial == |s.added|)
      && (!EmptyIsSafe(s, first) ==> r.calls == s.calls && !r.firing)
  {
    if s.firing {
      FiringEmptyThenAdd(s, cb);
    } else if s.list.Some? {
      IdleEmptyThenAdd(s, cb);
    } else {
      PushOnEmpty(EmptyList(s), cb);
    }
  }

  lemma {:induction false} PushOnEmpty(s: State, cb: Callback)
    requires s.list == Some([])
    ensures PushAll(s, [cb]) == s.(list := Some([Entry(cb, |s.added|)]), added := s.added + [cb])
  {
    assert [] + [Entry(cb, |s.added|)] == [Entry(cb, |s.added|)];
    assert PushAll(s, [cb]) == Push(s, cb);
  }

  /** The list after an `empty` and an addition, before anything is called. */
  function Renewed(s: State, cb: Callback): State {
    EmptyList(s).(list := Some([Entry(cb, |s.added|)]), added := s.added + [cb])
  }

  lemma FiringEmptyAdd(s: State, cb: Callback)
    requires Valid(s) && s.firing
    ensures Step(Step(s, Empty), Add([cb])) == Renewed(s, cb).(firingLength := 1)
  {
    PushOnEmpty(EmptyList(s), cb);
    hide PushAll;
  }

  /** In a firing the new entry is called if the index is still in front of it, else by the next
      waiting fire, if there is one. */
  lemma FiringEmptyThenAdd(s: State, cb: Callback)
    requires Valid(s) && s.firing
    ensures var r, e := Step(Step(Step(s, Empty), Add([cb])), Return(true)), Entry(cb, |s.added|);
      && r.added == s.added + [cb] && r.removed == s.removed + AllSerials(s)
      && (s.firingIndex < 0 ==> r.calls == s.calls + [Call(e, s.data)] && r.stack == s.stack)
      && (s.firingIndex >= 0 && StackSize(s) == 0 ==> r.calls == s.calls && !r.firing)
      && (s.firingIndex >= 0 && StackSize(s) > 0 ==>
            r.calls == s.calls + [Call(e, s.stack.value[0])] && StackSize(r) == StackSize(s) - 1)
  {
    FiringEmptyAdd(s, cb);
    var pushed := Renewed(s, cb).(firingLength := 1);
    var next := pushed.(firingIndex := s.firingIndex + 1);
    hide AddAll, Registered;
    assert Step(pushed, Return(true)) == Advance(next);
    if s.firingIndex >= 0 {
      assert Advance(next) == Finish(next);
      if StackSize(s) > 0 {
        NextFireCalls(next);
      }
    }
  }

  /** A waiting fire calls the first entry of the list. */
  lemma NextFireCalls(s: State)
    requires s.firingStart == 0 && s.list.Some? && s.list.value != [] && StackSize(s) > 0
    ensures Finish(s).calls == s.calls + [Call(s.list.value[0], s.stack.value[0])]
    ensures StackSize(Finish(s)) == StackSize(s) - 1
  {
    var idle, args := s.(firing := false, stack := Some(s.stack.value[1..])), s.stack.value[0];
    var head := idle.(memory := if s.opts.memory then Some(args) else None, fired := true, firingIndex := 0,
                      firingStart := 0, firingLength := |s.list.value|, data := args, firing := true);
    assert Finish(s) == Start(idle, args) == Advance(head);
  }

  lemma IdleEmptyAdd(s: State, cb: Callback)
    requires Valid(s) && !s.firing && s.list.Some? && s.memory.Some? && s.opts.memory
    ensures Step(Step(s, Empty), Add([cb])) ==
      Advance(Renewed(s, cb).(fired := true, firingIndex := 0, firingStart := 0,
                              firingLength := 1, data := s.memory.value, firing := true))
  {
    PushOnEmpty(EmptyList(s), cb);
    hide PushAll;
    assert Step(Step(s, Empty), Add([cb])) == Start(Renewed(s, cb), s.memory.value);
  }

  lemma IdleEmptyThenAdd(s: State, cb: Callback)
    requires Valid(s) && !s.firing && s.list.Some? && s.memory.Some? && StackSize(s) == 0 && s.opts.memory
    ensures var r := Step(Step(Step(s, Empty), Add([cb])), Return(true));
      && r.added == s.added + [cb] && r.removed == s.removed + AllSerials(s)
      && r.calls == s.calls + [Call(Entry(cb, |s.added|), s.memory.value)] && r.stack == s.stack
  {
    IdleEmptyAdd(s, cb);
    var head := Renewed(s, cb).(fired := true, firingIndex := 0, firingStart := 0,
                                firingLength := 1, data := s.memory.value, firing := true);
    var pushed := Step(Step(s, Empty), Add([cb]));
    hide AddAll, Registered;
    assert pushed == head.(calls := s.calls + [Call(Entry(cb, |s.added|), s.memory.value)]);
    assert Step(pushed, Return(true)) == Finish(pushed.(firingIndex := 1));
  }

  lemma {:induction false} RemoveAllOnRequest(s: State, cbs: seq<Callback>, t: nat)
    requires Valid(s) && t !in s.removed && t in RemoveAll(s, cbs).removed
    ensures t < |s.added| && s.added[t] in cbs
    decreases |cbs|
  {
    if t !in RemoveOne(s, cbs[0]).removed {
      RemoveAllOnRequest(RemoveOne(s, cbs[0]), cbs[1..], t);
    }
  }

  /** Only the requests that name it, or drop the whole list, take an addition away. */
  lemma RemovedOnRequest(s: State, e: Event, t: nat)
    requires Valid(s) && t !in s.removed && t in Step(s, e).removed
    ensures (e.Remove? && t < |s.added| && s.added[t] in e.cbs) || e.Empty? || e.Disable? || e.Lock?
  {
    if e.Remove? {
      RemoveAllOnRequest(s, e.cbs, t);
    }
  }
}
