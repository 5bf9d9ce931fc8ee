/** The done or fail list of a Deferred: a "once memory" list nobody removes from, whose first
    three callbacks are the Deferred's own. */
module SettlingList {
  import opened Wrappers
  import opened Callbacks
  import opened Deferred

  predicate AllUser(cbs: seq<Callback>, from: nat) {
    forall i :: from <= i < |cbs| ==> cbs[i].User?
  }

  predicate Closures(added: seq<Callback>, l: ListId) {
    |added| >= 3 && added[..3] == Internals(l) && AllUser(added, 3)
  }

  ghost predicate Prefixed(s: State, l: ListId) {
    Valid(s) && s.opts == ONCE_MEMORY && s.stack.None? && Closures(s.added, l)
  }

  /** The list holds the last additions, in order. */
  ghost predicate Listed(es: seq<Entry>, added: seq<Callback>) {
    && |es| <= |added|
    && forall i :: 0 <= i < |es| ==>
         es[i] == Entry(added[|added| - |es| + i], |added| - |es| + i)
  }

  /** Exactly the first additions have been called, in order, all with `args`. */
  ghost predicate Called(calls: seq<Call>, added: seq<Callback>, args: Args) {
    && |calls| <= |added|
    && forall i :: 0 <= i < |calls| ==> calls[i] == Call(Entry(added[i], i), args)
  }

  /** Not fired yet. */
  ghost predicate Waiting(s: State, l: ListId) {
    && Prefixed(s, l) && s.list.Some? && Listed(s.list.value, s.added)
    && !s.fired && s.memory.None? && |s.list.value| == |s.added| && s.calls == []
  }

  /** Fired with `args`: the additions are called one after the other from the first on. */
  ghost predicate Fired(s: State, l: ListId, args: Args) {
    && Prefixed(s, l) && s.list.Some? && Listed(s.list.value, s.added)
    && s.fired && s.memory == Some(args) && Called(s.calls, s.added, args)
    && (s.firing ==>
          && s.data == args && 0 <= s.firingIndex < |s.list.value|
          && |s.calls| == |s.added| - |s.list.value| + s.firingIndex + 1)
    && (!s.firing ==> s.list.value == [] && |s.calls| == |s.added|)
  }

  /** Disabled before it ever fired. */
  ghost predicate Dead(s: State) {
    Valid(s) && s.list.None? && s.calls == [] && !s.fired
  }

  lemma MarchIsRegistered(s: State, args: Args)
    requires s.list.Some? && Listed(s.list.value, s.added) && Called(s.calls, s.added, args)
    ensures Registered(s)
  {
  }

  /** The next call is that of the next addition. */
  lemma CalledNext(s: State, args: Args)
    requires s.list.Some? && Listed(s.list.value, s.added) && Called(s.calls, s.added, args)
    requires 0 <= s.firingIndex < |s.list.value| && |s.calls| == |s.added| - |s.list.value| + s.firingIndex
    ensures Called(s.calls + [Call(s.list.value[s.firingIndex], args)], s.added, args)
  {
  }

  lemma AdvanceMarches(s: State, l: ListId, args: Args)
    requires s.firing && s.fired && s.firingStart == 0 && s.opts == ONCE_MEMORY && s.stack.None?
    requires Closures(s.added, l) && s.memory == Some(args) && s.data == args
    requires s.list.Some? && Listed(s.list.value, s.added) && s.firingLength == |s.list.value|
    requires Called(s.calls, s.added, args)
    requires 0 <= s.firingIndex <= |s.list.value| && |s.calls| == |s.added| - |s.list.value| + s.firingIndex
    ensures var r := Advance(s);
      && Fired(r, l, args) && r.added == s.added
      && |r.calls| == |s.calls| + (if s.firingIndex < |s.list.value| then 1 else 0)
      && (r.firing <==> s.firingIndex < |s.list.value|)
  {
    hide Closures, Registered, Called;
    MarchIsRegistered(s, args);
    if s.firingIndex == |s.list.value| {
      assert Advance(s) == Finish(s);
      assert Listed([], s.added);
    } else {
      CalledNext(s, args);
    }
  }

  function Entries(cbs: seq<Callback>, from: nat): seq<Entry> {
    seq(|cbs|, i requires 0 <= i < |cbs| => Entry(cbs[i], from + i))
  }

  lemma EntriesSplit(es: seq<Entry>, cbs: seq<Callback>, n: nat)
    requires cbs != []
    ensures es + [Entry(cbs[0], n)] + Entries(cbs[1..], n + 1) == es + Entries(cbs, n)
  {
    assert [Entry(cbs[0], n)] + Entries(cbs[1..], n + 1) == Entries(cbs, n);
  }

  /** On a list that is not `unique`, pushing appends. */
  lemma {:induction false} PushAllPlain(s: State, cbs: seq<Callback>)
    requires s.list.Some? && !s.opts.unique
    ensures PushAll(s, cbs) ==
      s.(list := Some(s.list.value + Entries(cbs, |s.added|)), added := s.added + cbs)
    decreases |cbs|
  {
    if cbs == [] {
      assert s.list.value + Entries(cbs, |s.added|) == s.list.value && s.added + cbs == s.added;
    } else {
      var e, n := Entry(cbs[0], |s.added|), |s.added|;
      assert Push(s, cbs[0]) == s.(list := Some(s.list.value + [e]), added := s.added + [cbs[0]]);
      PushAllPlain(s.(list := Some(s.list.value + [e]), added := s.added + [cbs[0]]), cbs[1..]);
      EntriesSplit(s.list.value, cbs, n);
      assert s.added + [cbs[0]] + cbs[1..] == s.added + cbs;
    }
  }

  /** A done or fail list as the constructor leaves it. */
  lemma SettlingInitIs(l: ListId)
    ensures SettlingInit(l) ==
      Init(ONCE_MEMORY).(list := Some(Entries(Internals(l), 0)), added := Internals(l))
  {
    PushAllPlain(Init(ONCE_MEMORY), Internals(l));
    hide PushAll, Internals, Registered;
    var cbs := Internals(l);
    assert [] + cbs == cbs && [] + Entries(cbs, 0) == Entries(cbs, 0);
  }

  lemma {:induction false} PushUsers(s: State, l: ListId, ids: seq<nat>)
    requires Prefixed(s, l) && s.list.Some? && Listed(s.list.value, s.added)
    ensures var r := PushAll(s, Users(ids));
      && Closures(r.added, l) && Listed(r.list.value, r.added)
      && r.added == s.added + Users(ids) && |r.list.value| == |s.list.value| + |ids|
  {
    PushAllPlain(s, Users(ids));
    assert (s.added + Users(ids))[..3] == s.added[..3];
  }

  lemma AttachWaiting(s: State, l: ListId, ids: seq<nat>)
    requires Waiting(s, l)
    ensures Waiting(Step(s, Add(Users(ids))), l) && !s.firing
  {
    PushUsers(s, l, ids);
  }

  lemma AttachFired(s: State, l: ListId, ids: seq<nat>, args: Args)
    requires Fired(s, l, args)
    ensures var r := Step(s, Add(Users(ids)));
      && Fired(r, l, args)
      && (s.firing ==> r.firing && r.calls == s.calls)
      && (!s.firing ==> (r.firing <==> ids != []) && (r.firing ==> |r.calls| > 3))
  {
    PushUsers(s, l, ids);
    if !s.firing {
      var pushed := PushAll(s, Users(ids));
      var head := pushed.(memory := Some(args), fired := true, firingIndex := 0, firingStart := 0,
                          firingLength := |pushed.list.value|, data := args, firing := true);
      assert Step(s, Add(Users(ids))) == Start(pushed, args) == Advance(head);
      AdvanceMarches(head, l, args);
    }
  }

  lemma AttachDead(s: State, ids: seq<nat>)
    requires Dead(s)
    ensures Step(s, Add(Users(ids))) == s
  {
  }

  /** Resolving again, or the list that lost, changes nothing. */
  lemma FireAgain(s: State, l: ListId, won: Args, args: Args)
    requires Fired(s, l, won) || Dead(s)
    ensures Step(s, Fire(args)) == s
  {
  }

  lemma FireWaiting(s: State, l: ListId, args: Args)
    requires Waiting(s, l)
    ensures var r := Step(s, Fire(args));
      Fired(r, l, args) && r.firing && |r.calls| == 1 && !s.firing
  {
    var head := s.(memory := Some(args), fired := true, firingIndex := 0, firingStart := 0,
                   firingLength := |s.list.value|, data := args, firing := true);
    assert Step(s, Fire(args)) == Start(s, args) == Advance(head);
    AdvanceMarches(head, l, args);
  }

  lemma ReturnFired(s: State, l: ListId, args: Args, result: bool)
    requires Fired(s, l, args) && s.firing
    ensures var r := Step(s, Return(result));
      && Fired(r, l, args)
      && (|s.calls| < 3 ==> r.firing)
      && (r.firing ==> |r.calls| == |s.calls| + 1)
      && (!r.firing ==> |s.calls| == |s.added| && r.calls == s.calls)
  {
    AdvanceMarches(s.(firingIndex := s.firingIndex + 1), l, args);
  }

  lemma DisableWaiting(s: State, l: ListId)
    requires Waiting(s, l)
    ensures Dead(Step(s, Disable))
  {
  }

  /** The callback a fired list is running. */
  lemma CurrentOf(s: State, l: ListId, args: Args)
    requires Fired(s, l, args) && s.firing
    ensures 1 <= |s.calls| <= |s.added| && Current(s) == s.added[|s.calls| - 1]
    ensures |s.calls| <= 3 ==> Current(s) == Internals(l)[|s.calls| - 1]
    ensures Current(s).User? <==> |s.calls| > 3
  {
    if |s.calls| <= 3 {
      assert s.added[..3][|s.calls| - 1] == s.added[|s.calls| - 1];
    }
  }

  // ---------------------------------------------------------------- the progress list

  ghost predicate ProgressOk(s: State) {
    && Valid(s) && s.opts == MEMORY && AllUser(s.added, 0)
    && (s.memory.Some? ==> s.fired)
    && (s.fired && s.list.Some? ==> s.memory.Some?)
    && (s.list.None? ==> s.stack.None?)
  }

  /** Locked: no fire has any effect any more. */
  ghost predicate Locked(s: State) {
    s.stack.None? && (s.list.None? || s.fired)
  }

  ghost predicate SameGate(s: State, r: State) {
    (Open(s) ==> Open(r)) && (Locked(s) ==> Locked(r))
  }

  lemma {:induction false} AdvanceProgress(s: State)
    requires s.firing && s.fired && s.firingStart == 0 && 0 <= s.firingIndex && Registered(s)
    requires s.opts == MEMORY && AllUser(s.added, 0) && (s.list.None? ==> s.stack.None?)
    requires s.list.Some? ==> s.firingLength == |s.list.value| && s.memory.Some?
    ensures ProgressOk(Advance(s)) && SameGate(s, Advance(s))
    decreases StackSize(s)
  {
    if s.list.Some? && s.firingIndex < s.firingLength {
    } else {
      assert Advance(s) == Finish(s);
      if s.list.Some? && s.stack.Some? && s.stack.value != [] {
        var args := s.stack.value[0];
        var idle := s.(firing := false, stack := Some(s.stack.value[1..]));
        assert Finish(s) == Start(idle, args);
        var head := idle.(memory := Some(args), fired := true, firingIndex := 0, firingStart := 0,
                          firingLength := |s.list.value|, data := args, firing := true);
        assert Start(idle, args) == Advance(head);
        AdvanceProgress(head);
      }
    }
  }

  lemma AttachProgress(s: State, ids: seq<nat>)
    requires ProgressOk(s)
    ensures var r := Step(s, Add(Users(ids)));
      ProgressOk(r) && SameGate(s, r) && (s.firing ==> r.firing)
  {
    if s.list.Some? {
      PushAllPlain(s, Users(ids));
      var pushed := PushAll(s, Users(ids));
      if !s.firing && s.memory.Some? {
        var head := pushed.(firingIndex := |s.list.value|, firingLength := |pushed.list.value|,
                            data := s.memory.value, fired := true, firing := true);
        assert Step(s, Add(Users(ids))) == Start(pushed.(firingStart := |s.list.value|), s.memory.value);
        assert Start(pushed.(firingStart := |s.list.value|), s.memory.value) == Advance(head);
        AdvanceProgress(head);
      }
    }
  }

  lemma FireProgress(s: State, args: Args)
    requires ProgressOk(s)
    ensures var r := Step(s, Fire(args));
      ProgressOk(r) && SameGate(s, r) && (s.firing ==> r.firing) && (Locked(s) ==> r == s)
  {
    if s.list.Some? && !(s.fired && s.stack.None?) && !s.firing {
      var head := s.(memory := Some(args), fired := true, firingIndex := 0, firingStart := 0,
                     firingLength := |s.list.value|, data := args, firing := true);
      assert Step(s, Fire(args)) == Start(s, args) == Advance(head);
      AdvanceProgress(head);
    }
  }

  lemma ReturnProgress(s: State, result: bool)
    requires ProgressOk(s) && s.firing
    ensures ProgressOk(Step(s, Return(result))) && SameGate(s, Step(s, Return(result)))
  {
    AdvanceProgress(s.(firingIndex := s.firingIndex + 1));
  }

  lemma LockProgress(s: State)
    requires ProgressOk(s)
    ensures var r := Step(s, Lock);
      ProgressOk(r) && Locked(r) && (r.firing <==> s.firing)
  {
  }

  /** Every callback of the progress list is user code. */
  lemma CurrentProgress(s: State)
    requires ProgressOk(s) && s.calls != []
    ensures Current(s).User?
  {
    assert s.calls[|s.calls|-1] in s.calls;
  }
}
