/** What is on the lists of a Deferred: its own closures, then what user code attached. */
module Attached {
  import opened Callbacks
  import opened Deferred
  import opened Sequences
  import SettlingList

  /** The functions user code attached to a list, in order. While one of the Deferred's own
      closures runs, no user code does. */
  function AttachedTo(evs: seq<DEvent>, l: ListId): seq<nat> {
    if evs == [] then []
    else
      var before, e := evs[..|evs|-1], evs[|evs|-1];
      AttachedTo(before, l) + if e.Attach? && e.target == l && !Busy(DRun(before)) then e.ids else []
  }

  /** The Deferred's own closures on a list. */
  function Own(l: ListId): seq<Callback> {
    if l == ProgressList then [] else Internals(l)
  }

  /** No step but an addition adds, and none but `empty` brings a disabled list back. */
  lemma OthersAddNothing(s: State, e: Event)
    requires Valid(s) && (e.Fire? || e.Return? || e.Disable? || e.Lock?)
    ensures Step(s, e).added == s.added && (Step(s, e).list.Some? ==> s.list.Some?)
  {
    if s.list.None? && s.firing && e.Return? {
      var next := s.(firingIndex := s.firingIndex + 1);
      assert Advance(next) == Finish(next);
    }
  }

  lemma AddAdds(s: State, cbs: seq<Callback>)
    requires Valid(s) && !s.opts.unique
    ensures Step(s, Add(cbs)).list.Some? ==> s.list.Some? && Step(s, Add(cbs)).added == s.added + cbs
  {
    if s.list.Some? {
      SettlingList.PushAllPlain(s, cbs);
    }
  }

  lemma UsersConcat(a: seq<nat>, b: seq<nat>)
    ensures Users(a + b) == Users(a) + Users(b)
  {
  }

  /** What one event adds to a list that is not disabled. */
  lemma EventAdds(d: DState, e: DEvent, l: ListId)
    requires ValidD(d) && !d.lists[l].opts.unique
    ensures var s, r := d.lists[l], DStep(d, e).lists[l];
      && r.opts == s.opts
      && (r.list.Some? ==>
            && s.list.Some?
            && r.added == s.added + if e.Attach? && e.target == l && !Busy(d) then Users(e.ids) else [])
  {
    hide Step, Valid;
    var s := d.lists[l];
    match e
    case Attach(k, ids) => AddAdds(s, Users(ids));
    case Trigger(k, args) => OthersAddNothing(s, Fire(args));
    case Leave(result) => OthersAddNothing(s, Return(result));
    case Tick =>
      OthersAddNothing(s, Disable);
      OthersAddNothing(s, Lock);
      OthersAddNothing(s, Return(true));
      OthersAddNothing(Step(s, Disable), Return(true));
      OthersAddNothing(Step(s, Lock), Return(true));
  }

  /** A list that is not disabled was given exactly the closures and what was attached. */
  lemma {:induction false} AddedAreAttached(evs: seq<DEvent>, l: ListId)
    ensures var s := DRun(evs).lists[l];
      !s.opts.unique && (s.list.Some? ==> s.added == Own(l) + Users(AttachedTo(evs, l)))
    decreases |evs|
  {
    hide Step, Valid, DStep, Users, Own, InitD, Busy;
    if evs == [] {
      AtFirst(l);
    } else {
      var before, e := evs[..|evs|-1], evs[|evs|-1];
      AddedAreAttached(before, l);
      EventAdds(DRun(before), e, l);
      var was, own := AttachedTo(before, l), Own(l);
      if e.Attach? {
        UsersConcat(was, e.ids);
        Assoc(own, Users(was), Users(e.ids));
      }
      assert was + [] == was && (own + Users(was)) + [] == own + Users(was);
    }
  }

  /** A list that is not disabled never was. */
  lemma {:induction false} NeverDisabled(evs: seq<DEvent>, l: ListId, n: nat)
    requires n <= |evs| && DRun(evs).lists[l].list.Some?
    ensures DRun(evs[..n]).lists[l].list.Some?
    decreases |evs|
  {
    hide Step, Valid, DStep;
    if n < |evs| {
      var before := evs[..|evs|-1];
      AddedAreAttached(before, l);
      EventAdds(DRun(before), evs[|evs|-1], l);
      NeverDisabled(before, l, n);
      assert before[..n] == evs[..n];
    } else {
      assert evs[..n] == evs;
    }
  }

  lemma AtFirst(l: ListId)
    ensures var s := InitD().lists[l];
      !s.opts.unique && s.added == Own(l) + Users([])
  {
    hide Valid, SettlingInit, Internals;
    SettlingAdds(l);
    assert Own(l) + Users([]) == Own(l);
  }

  lemma SettlingAdds(l: ListId)
    ensures SettlingInit(l).added == Internals(l) && SettlingInit(l).opts == ONCE_MEMORY
  {
    SettlingList.SettlingInitIs(l);
  }
}
