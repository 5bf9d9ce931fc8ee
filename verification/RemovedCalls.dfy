/** Removing is final: what has been taken off a list is never called again, on any list. */
module RemovedCalls {
  import opened Wrappers
  import opened Callbacks
  import opened OnceMemory

  function Listed(s: State): seq<Entry> {
    if s.list.Some? then s.list.value else []
  }

  /** Nothing removed is on the list, and no addition is on it twice. */
  ghost predicate Fresh(s: State) {
    && (forall t <- s.removed :: t < |s.added|)
    && Increasing(Listed(s))
    && (forall e <- Listed(s) :: e.serial < |s.added| && e.serial !in s.removed)
  }

  // ---------------------------------------------------------------- the list

  lemma PushFresh(s: State, cbs: seq<Callback>)
    requires s.list.Some? && Fresh(s)
    ensures Fresh(PushAll(s, cbs))
  {
    PushAllAppends(s, cbs);
    var r := PushAll(s, cbs);
    forall e <- r.list.value ensures e.serial < |r.added| && e.serial !in s.removed {
      var k :| 0 <= k < |r.list.value| && r.list.value[k] == e;
      assert k < |s.list.value| ==> e in s.list.value;
    }
  }

  /** What stays on the list is not among the removed. */
  lemma StaysUnremoved(es: seq<Entry>, cb: Callback, e: Entry)
    requires Increasing(es) && e in Without(es, cb)
    ensures e in es && e.serial !in SerialsOf(es, cb)
  {
    WithoutMembers(es, cb);
    forall x <- es | x.cb == cb ensures x.serial != e.serial {
      var i :| 0 <= i < |es| && es[i] == e;
      var j :| 0 <= j < |es| && es[j] == x;
      assert i < j || j < i;
    }
  }

  lemma FilterFresh(s: State, cb: Callback)
    requires s.list.Some? && Fresh(s)
    ensures var es := s.list.value;
      Fresh(s.(list := Some(Without(es, cb)), removed := s.removed + SerialsOf(es, cb)))
  {
    hide Increasing, Without;
    var es := s.list.value;
    WithoutIncreasing(es, cb);
    forall e <- Without(es, cb) ensures e in es && e.serial !in SerialsOf(es, cb) {
      StaysUnremoved(es, cb, e);
    }
  }

  lemma {:induction false} RemoveFresh(s: State, cbs: seq<Callback>)
    requires Valid(s) && Fresh(s)
    ensures var r := RemoveAll(s, cbs);
      Fresh(r) && s.removed <= r.removed && r.calls == s.calls
    decreases |cbs|
  {
    if cbs != [] {
      if s.list.Some? {
        FilterFresh(s, cbs[0]);
      }
      RemoveFresh(RemoveOne(s, cbs[0]), cbs[1..]);
    }
  }

  // ---------------------------------------------------------------- the firing loop

  /** What a step adds to the calls is nothing that was removed before it. */
  ghost predicate CallsUnremoved(s: State, r: State) {
    && s.calls <= r.calls && s.removed <= r.removed
    && forall k :: |s.calls| <= k < |r.calls| ==> r.calls[k].entry.serial !in s.removed
  }

  lemma {:induction false} AdvanceFresh(s: State)
    requires s.firing && s.firingStart == 0 && s.fired && 0 <= s.firingIndex && Fresh(s)
    requires s.list.Some? ==> s.firingLength == |s.list.value|
    ensures Fresh(Advance(s)) && CallsUnremoved(s, Advance(s))
    decreases StackSize(s), 1
  {
    if s.list.Some? && s.firingIndex < s.firingLength {
      assert s.list.value[s.firingIndex] in Listed(s);
    } else {
      assert Advance(s) == Finish(s);
      FinishFresh(s);
    }
  }

  lemma {:induction false} FinishFresh(s: State)
    requires s.firingStart == 0 && Fresh(s)
    ensures Fresh(Finish(s)) && CallsUnremoved(s, Finish(s))
    decreases StackSize(s), 0
  {
    if s.list.Some? && s.stack.Some? && s.stack.value != [] {
      var idle, args := s.(firing := false, stack := Some(s.stack.value[1..])), s.stack.value[0];
      assert Finish(s) == Start(idle, args);
      StartFresh(idle, args);
    }
  }

  lemma {:induction false} StartFresh(s: State, data: Args)
    requires s.list.Some? && s.firingStart <= |s.list.value| && Fresh(s)
    ensures Fresh(Start(s, data)) && CallsUnremoved(s, Start(s, data))
    decreases StackSize(s), 2
  {
    var head := s.(memory := if s.opts.memory then Some(data) else None, fired := true, firingIndex := s.firingStart,
                   firingStart := 0, firingLength := |s.list.value|, data := data, firing := true);
    assert Start(s, data) == Advance(head);
    AdvanceFresh(head);
  }

  // ---------------------------------------------------------------- whole runs

  lemma StepFresh(s: State, e: Event)
    requires Valid(s) && Fresh(s)
    ensures Fresh(Step(s, e)) && CallsUnremoved(s, Step(s, e))
  {
    hide Advance, Finish, Start, Registered;
    match e
    case Add(cbs) =>
      if s.list.Some? {
        PushFresh(s, cbs);
        if !s.firing && s.memory.Some? {
          StartFresh(PushAll(s, cbs).(firingStart := |s.list.value|), s.memory.value);
        }
      }
    case Remove(cbs) => RemoveFresh(s, cbs);
    case Fire(args) => if s.list.Some? && !(s.fired && s.stack.None?) && !s.firing { StartFresh(s, args); }
    case Empty =>
    case Disable =>
    case Lock =>
    case Return(result) =>
      if s.firing {
        if !result && s.opts.stopOnFalse {
          FinishFresh(s.(memory := None));
        } else {
          AdvanceFresh(s.(firingIndex := s.firingIndex + 1));
        }
      }
  }

  lemma {:induction false} RunFresh(opts: Options, evs: seq<Event>)
    ensures Fresh(Run(opts, evs))
    decreases |evs|
  {
    hide Step, Valid;
    if evs != [] {
      hide Fresh;
      RunFresh(opts, evs[..|evs|-1]);
      StepFresh(Run(opts, evs[..|evs|-1]), evs[|evs|-1]);
    }
  }

  /** On a list of any kind, in any run: an addition that has been removed is not called from then
      on, however the run continues; calls already made stay as they are. */
  lemma {:induction false} RemovedNeverCalled(opts: Options, evs: seq<Event>, more: seq<Event>)
    ensures CallsUnremoved(Run(opts, evs), Run(opts, evs + more))
    decreases |more|
  {
    hide Step, Valid, Fresh, Run;
    if more == [] {
      assert evs + more == evs;
    } else {
      var before, e := more[..|more|-1], more[|more|-1];
      assert evs + more == (evs + before) + [e];
      RemovedNeverCalled(opts, evs, before);
      RunFresh(opts, evs + before);
      StepFresh(Run(opts, evs + before), e);
      RunOneMore(opts, evs + before, e);
    }
  }

  lemma RunOneMore(opts: Options, evs: seq<Event>, e: Event)
    ensures Run(opts, evs + [e]) == Step(Run(opts, evs), e)
  {
    hide Step, Valid;
    assert (evs + [e])[..|evs|] == evs;
  }
}
