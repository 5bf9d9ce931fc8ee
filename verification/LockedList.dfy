/** Open lists accept every fire; locked ones never begin another round. */
module LockedList {
  import opened Wrappers
  import opened Callbacks
  import opened MemoryList

  function Fires(evs: seq<Event>): seq<Args> {
    if evs == [] then []
    else
      var e := evs[|evs|-1];
      Fires(evs[..|evs|-1]) + if e.Fire? then [e.args] else []
  }

  lemma {:induction false} AdvanceStaysOpen(s: State)
    requires s.firing && s.firingStart == 0 && s.fired && 0 <= s.firingIndex && Open(s)
    requires s.firingLength == |s.list.value|
    ensures Open(Advance(s))
    decreases StackSize(s), 1
  {
    if s.firingIndex >= s.firingLength {
      assert Advance(s) == Finish(s);
      FinishStaysOpen(s);
    }
  }

  lemma {:induction false} FinishStaysOpen(s: State)
    requires s.firingStart == 0 && Open(s)
    ensures Open(Finish(s))
    decreases StackSize(s), 0
  {
    if s.stack.value != [] {
      var idle, data := s.(firing := false, stack := Some(s.stack.value[1..])), s.stack.value[0];
      assert Finish(s) == Start(idle, data);
      StartStaysOpen(idle, data);
    }
  }

  lemma {:induction false} StartStaysOpen(s: State, data: Args)
    requires Open(s) && s.firingStart <= |s.list.value|
    ensures Open(Start(s, data))
    decreases StackSize(s), 2
  {
    var head := Head(s, data, s.firingStart).(memory := if s.opts.memory then Some(data) else None);
    assert Start(s, data) == Advance(head);
    AdvanceStaysOpen(head);
  }

  lemma {:induction false} RemoveStaysOpen(s: State, cbs: seq<Callback>)
    requires Valid(s) && Open(s)
    ensures Open(RemoveAll(s, cbs))
    decreases |cbs|
  {
    if cbs != [] {
      RemoveStaysOpen(RemoveOne(s, cbs[0]), cbs[1..]);
    }
  }

  lemma StepStaysOpen(s: State, e: Event)
    requires Valid(s) && Open(s) && !e.Lock? && !e.Disable?
    ensures Open(Step(s, e))
  {
    hide Advance, Finish, Start;
    match e
    case Add(cbs) =>
      if !s.firing && s.memory.Some? {
        StartStaysOpen(PushAll(s, cbs).(firingStart := |s.list.value|), s.memory.value);
      }
    case Remove(cbs) => RemoveStaysOpen(s, cbs);
    case Fire(args) => if !s.firing { StartStaysOpen(s, args); }
    case Empty =>
    case Return(result) =>
      if s.firing {
        if !result && s.opts.stopOnFalse {
          FinishStaysOpen(s.(memory := None));
        } else {
          AdvanceStaysOpen(s.(firingIndex := s.firingIndex + 1));
        }
      }
  }

  /** Without a lock or a disable every fire is accepted. */
  lemma {:induction false} OpenListAccepts(opts: Options, evs: seq<Event>)
    requires !opts.once && forall e <- evs :: !e.Lock? && !e.Disable?
    ensures Open(Run(opts, evs)) && Accepted(opts, evs) == Fires(evs)
    decreases |evs|
  {
    if evs != [] {
      hide Step;
      var before, e := evs[..|evs|-1], evs[|evs|-1];
      assert e in evs && forall x <- before :: x in evs;
      OpenListAccepts(opts, before);
      StepStaysOpen(Run(opts, before), e);
    }
  }

  /** From now on only `args` can be passed on. */
  ghost predicate Carries(s: State, args: Args) {
    && s.fired && s.stack.None?
    && (s.firing ==> s.data == args)
    && (s.memory.Some? ==> s.memory.value == args)
  }

  ghost predicate OnlyMore(s: State, r: State, args: Args) {
    s.calls <= r.calls && forall k :: |s.calls| <= k < |r.calls| ==> r.calls[k].args == args
  }

  lemma AdvanceCarries(s: State, args: Args)
    requires s.firing && s.firingStart == 0 && s.fired && 0 <= s.firingIndex && Carries(s, args)
    requires s.list.Some? ==> s.firingLength == |s.list.value|
    ensures Carries(Advance(s), args) && OnlyMore(s, Advance(s), args)
  {
    if s.list.None? || s.firingIndex >= s.firingLength {
      assert Advance(s) == Finish(s);
    }
  }

  lemma {:induction false} RemoveCarries(s: State, cbs: seq<Callback>, args: Args)
    requires Valid(s) && Carries(s, args)
    ensures Carries(RemoveAll(s, cbs), args) && OnlyMore(s, RemoveAll(s, cbs), args)
    decreases |cbs|
  {
    if cbs != [] {
      RemoveCarries(RemoveOne(s, cbs[0]), cbs[1..], args);
    }
  }

  lemma StepCarries(s: State, e: Event, args: Args)
    requires Valid(s) && Carries(s, args)
    ensures Carries(Step(s, e), args) && OnlyMore(s, Step(s, e), args)
  {
    hide Advance;
    match e
    case Add(cbs) =>
      if s.list.Some? && !s.firing && s.memory.Some? {
        var pushed := PushAll(s, cbs);
        var head := Head(pushed, args, |s.list.value|).(memory := if s.opts.memory then Some(args) else None);
        assert AddAll(s, cbs) == Start(pushed.(firingStart := |s.list.value|), args) == Advance(head);
        AdvanceCarries(head, args);
      }
    case Remove(cbs) => RemoveCarries(s, cbs, args);
    case Fire(_) =>
    case Empty =>
    case Disable =>
    case Lock =>
    case Return(result) =>
      if s.firing && (result || !s.opts.stopOnFalse) {
        AdvanceCarries(s.(firingIndex := s.firingIndex + 1), args);
      }
  }

  /** The arguments of the last round. */
  function LastArgs(s: State): Args {
    if !s.firing && s.memory.Some? then s.memory.value else s.data
  }

  /** A locked list never begins another round, so what was waiting when it was locked is dropped:
      whatever follows, every further call has the arguments of the last round. */
  lemma {:induction false} LockDropsWaiting(opts: Options, evs: seq<Event>, more: seq<Event>)
    requires IsMemory(opts) && EmptiesSafely(opts, evs)
    requires Run(opts, evs).fired && Run(opts, evs).stack.None?
    ensures var s, r := Run(opts, evs), Run(opts, evs + more);
      Carries(r, LastArgs(s)) && OnlyMore(s, r, LastArgs(s))
    decreases |more|
  {
    hide Step, Common, Current, Valid;
    var s := Run(opts, evs);
    if more == [] {
      assert evs + more == evs;
      var _, marks := RunKeeps(opts, evs);
      LastCarries(s, Accepted(opts, evs), marks);
    } else {
      var before := evs + more[..|more|-1];
      assert (evs + more)[..|evs + more|-1] == before;
      LockDropsWaiting(opts, evs, more[..|more|-1]);
      StepCarries(Run(opts, before), more[|more|-1], LastArgs(s));
    }
  }

  lemma LastCarries(s: State, fires: seq<Args>, marks: seq<Mark>)
    requires MemoryList.Inv(s, fires, marks) && s.fired && s.stack.None?
    ensures Carries(s, LastArgs(s))
  {
  }
}
