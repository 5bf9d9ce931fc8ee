/** What the requests to a callback list do, said of lists of every kind and of whole runs. */
module ListLaws {
  import opened Wrappers
  import opened Sequences
  import opened Callbacks
  import opened OnceMemory
  import opened RemovedCalls

  // ---------------------------------------------------------------- remove

  /** The entries of other functions, in order. */
  function Others(es: seq<Entry>, cbs: seq<Callback>): seq<Entry> {
    if es == [] then []
    else (if es[0].cb in cbs then [] else [es[0]]) + Others(es[1..], cbs)
  }

  lemma {:induction false} OthersConcat(a: seq<Entry>, b: seq<Entry>, cbs: seq<Callback>)
    ensures Others(a + b, cbs) == Others(a, cbs) + Others(b, cbs)
    decreases |a|
  {
    if a == [] {
      assert a + b == b;
    } else {
      var head := if a[0].cb in cbs then [] else [a[0]];
      OthersConcat(a[1..], b, cbs);
      assert (a + b)[1..] == a[1..] + b && (a + b)[0] == a[0];
      Assoc(head, Others(a[1..], cbs), Others(b, cbs));
    }
  }

  /** Removing one function after the other. */
  lemma {:induction false} OthersOfWithout(es: seq<Entry>, cb: Callback, cbs: seq<Callback>)
    ensures Others(Without(es, cb), cbs) == Others(es, [cb] + cbs)
    decreases |es|
  {
    if es != [] {
      var init, last := es[..|es|-1], es[|es|-1];
      OthersOfWithout(init, cb, cbs);
      OthersConcat(init, [last], [cb] + cbs);
      OthersConcat(Without(init, cb), [last], cbs);
      assert es == init + [last] && [last][1..] == [];
    }
  }

  lemma {:induction false} NoneOut(es: seq<Entry>)
    ensures Others(es, []) == es
    decreases |es|
  {
    if es != [] {
      NoneOut(es[1..]);
    }
  }

  /** The serials of the entries of some functions. */
  function SerialsIn(es: seq<Entry>, cbs: seq<Callback>): set<nat> {
    set e <- es | e.cb in cbs :: e.serial
  }

  lemma SerialsStep(es: seq<Entry>, cb: Callback, cbs: seq<Callback>)
    ensures SerialsOf(es, cb) + SerialsIn(Without(es, cb), cbs) == SerialsIn(es, [cb] + cbs)
  {
    hide Without;
    WithoutMembers(es, cb);
    var l, r := SerialsOf(es, cb) + SerialsIn(Without(es, cb), cbs), SerialsIn(es, [cb] + cbs);
    forall t | t in r ensures t in l {
      var e :| e in es && e.cb in [cb] + cbs && e.serial == t;
      assert e.cb != cb ==> e in Without(es, cb);
    }
  }

  /** `r` is `s` without the entries of the named functions: they leave the list and count as
      removed, the others stay in order, what is still to be called is what was, less them, and
      nothing else changes. */
  ghost predicate Lacks(s: State, r: State, cbs: seq<Callback>)
    requires s.list.Some?
  {
    && r.list == Some(Others(s.list.value, cbs))
    && r.removed == s.removed + SerialsIn(s.list.value, cbs)
    && OnceMemory.Pending(r) == Others(OnceMemory.Pending(s), cbs)
    && r == s.(list := r.list, removed := r.removed, firingLength := r.firingLength, firingIndex := r.firingIndex)
  }

  lemma LacksOneMore(s: State, r: State, cb: Callback, cbs: seq<Callback>)
    requires Valid(s) && s.list.Some? && Lacks(RemoveOne(s, cb), r, cbs)
    ensures Lacks(s, r, [cb] + cbs)
  {
    RemoveKeepsPlace(s, cb);
    hide Valid, OnceMemory.Pending, Others, Without, SerialsIn, SerialsOf;
    OthersOfWithout(s.list.value, cb, cbs);
    OthersOfWithout(OnceMemory.Pending(s), cb, cbs);
    SerialsStep(s.list.value, cb, cbs);
  }

  lemma LacksNone(s: State)
    requires s.list.Some?
    ensures Lacks(s, s, [])
  {
    NoneOut(s.list.value);
    NoneOut(OnceMemory.Pending(s));
    assert SerialsIn(s.list.value, []) == {};
  }

  lemma {:induction false} RemoveAllRemoves(s: State, cbs: seq<Callback>)
    requires Valid(s) && s.list.Some?
    ensures Lacks(s, RemoveAll(s, cbs), cbs)
    decreases |cbs|
  {
    hide Valid, Lacks;
    if cbs == [] {
      LacksNone(s);
    } else {
      RemoveAllRemoves(RemoveOne(s, cbs[0]), cbs[1..]);
      LacksOneMore(s, RemoveAll(s, cbs), cbs[0], cbs[1..]);
      assert [cbs[0]] + cbs[1..] == cbs;
    }
  }

  /** `remove`, running or not, takes exactly the named functions off a list. */
  lemma RemoveRemoves(s: State, cbs: seq<Callback>)
    requires Valid(s) && s.list.Some?
    ensures Lacks(s, Step(s, Remove(cbs)), cbs)
  {
    hide Valid, Lacks;
    RemoveAllRemoves(s, cbs);
  }

  /** The others are the entries whose function is not named. */
  lemma {:induction false} OthersAre(es: seq<Entry>, cbs: seq<Callback>)
    ensures forall e :: e in Others(es, cbs) <==> e in es && e.cb !in cbs
    decreases |es|
  {
    if es != [] {
      OthersAre(es[1..], cbs);
      assert es == [es[0]] + es[1..];
    }
  }

  /** Nothing is to be removed from a disabled list. */
  lemma RemoveFromDisabled(s: State, cbs: seq<Callback>)
    requires Valid(s) && s.list.None?
    ensures Step(s, Remove(cbs)) == s
  {
    RemoveNothing(s, cbs);
  }

  lemma {:induction false} RemoveNothing(s: State, cbs: seq<Callback>)
    requires Valid(s) && s.list.None?
    ensures RemoveAll(s, cbs) == s
    decreases |cbs|
  {
    if cbs != [] {
      RemoveNothing(s, cbs[1..]);
    }
  }

  // ---------------------------------------------------------------- where calls come from

  /** On the list now, or added later. */
  predicate FromList(s: State, t: nat) {
    t >= |s.added| || exists e <- Listed(s) :: e.serial == t
  }

  /** Everything on the list, and everything called since, was on the list or was added since. */
  ghost predicate Follows(s: State, r: State) {
    && s.calls <= r.calls && s.added <= r.added
    && (forall e <- Listed(r) :: FromList(s, e.serial))
    && (forall k :: |s.calls| <= k < |r.calls| ==> FromList(s, r.calls[k].entry.serial))
  }

  lemma FollowsTwice(s: State, m: State, r: State)
    requires Follows(s, m) && Follows(m, r)
    ensures Follows(s, r)
  {
    forall t: nat | FromList(m, t) ensures FromList(s, t) {
      if t < |m.added| {
        var e :| e in Listed(m) && e.serial == t;
      }
    }
  }

  lemma {:induction false} AdvanceFollows(s: State)
    requires s.firing && s.firingStart == 0 && s.fired && 0 <= s.firingIndex
    requires s.list.Some? ==> s.firingLength == |s.list.value|
    ensures Follows(s, Advance(s))
    decreases StackSize(s), 1
  {
    if s.list.Some? && s.firingIndex < s.firingLength {
      assert s.list.value[s.firingIndex] in Listed(s);
    } else {
      assert Advance(s) == Finish(s);
      FinishFollows(s);
    }
  }

  lemma {:induction false} FinishFollows(s: State)
    requires s.firingStart == 0
    ensures Follows(s, Finish(s))
    decreases StackSize(s), 0
  {
    if s.list.Some? && s.stack.Some? && s.stack.value != [] {
      var idle, args := s.(firing := false, stack := Some(s.stack.value[1..])), s.stack.value[0];
      assert Finish(s) == Start(idle, args);
      StartFollows(idle, args);
    }
  }

  lemma {:induction false} StartFollows(s: State, data: Args)
    requires s.list.Some? && s.firingStart <= |s.list.value|
    ensures Follows(s, Start(s, data))
    decreases StackSize(s), 2
  {
    var head := s.(memory := if s.opts.memory then Some(data) else None, fired := true, firingIndex := s.firingStart,
                   firingStart := 0, firingLength := |s.list.value|, data := data, firing := true);
    assert Start(s, data) == Advance(head);
    AdvanceFollows(head);
  }

  lemma PushFollows(s: State, cbs: seq<Callback>)
    requires s.list.Some?
    ensures Follows(s, PushAll(s, cbs))
  {
    PushAllAppends(s, cbs);
    var r := PushAll(s, cbs);
    forall e <- r.list.value ensures FromList(s, e.serial) {
      var k :| 0 <= k < |r.list.value| && r.list.value[k] == e;
      assert k < |s.list.value| ==> e in Listed(s);
    }
  }

  lemma {:induction false} RemoveFollows(s: State, cbs: seq<Callback>)
    requires Valid(s)
    ensures Follows(s, RemoveAll(s, cbs))
    decreases |cbs|
  {
    if cbs != [] {
      var one := RemoveOne(s, cbs[0]);
      if s.list.Some? {
        WithoutMembers(s.list.value, cbs[0]);
      }
      RemoveFollows(one, cbs[1..]);
      FollowsTwice(s, one, RemoveAll(s, cbs));
    }
  }

  lemma StepFollows(s: State, e: Event)
    requires Valid(s)
    ensures Follows(s, Step(s, e))
  {
    hide Advance, Finish, Start, Registered, FromList;
    match e
    case Add(cbs) =>
      if s.list.Some? {
        var pushed := PushAll(s, cbs);
        PushFollows(s, cbs);
        if !s.firing && s.memory.Some? {
          var ready := pushed.(firingStart := |s.list.value|);
          StartFollows(ready, s.memory.value);
          FollowsTwice(s, ready, Start(ready, s.memory.value));
        }
      } else {
        Stays(s);
      }
    case Remove(cbs) => RemoveFollows(s, cbs);
    case Fire(args) =>
      if s.list.Some? && !(s.fired && s.stack.None?) && !s.firing {
        StartFollows(s, args);
      } else {
        Stays(s);
      }
    case Empty =>
    case Disable =>
    case Lock => Stays(s);
    case Return(result) =>
      if s.firing {
        var next := if !result && s.opts.stopOnFalse then s.(memory := None) else s.(firingIndex := s.firingIndex + 1);
        if !result && s.opts.stopOnFalse {
          FinishFollows(next);
        } else {
          AdvanceFollows(next);
        }
        SameListFollows(s, next, Step(s, e));
      } else {
        Stays(s);
      }
  }

  lemma Stays(s: State)
    ensures Follows(s, s) && forall e <- Listed(s) :: FromList(s, e.serial)
  {
  }

  lemma SameListFollows(s: State, next: State, r: State)
    requires Follows(next, r) && next.list == s.list && next.added == s.added && next.calls == s.calls
    ensures Follows(s, r)
  {
  }

  lemma {:induction false} RunFollows(opts: Options, evs: seq<Event>, more: seq<Event>)
    ensures Follows(Run(opts, evs), Run(opts, evs + more))
    decreases |more|
  {
    hide Step, Valid, Follows, Run;
    if more == [] {
      assert evs + more == evs;
      Stays(Run(opts, evs));
    } else {
      var before, e := more[..|more|-1], more[|more|-1];
      assert evs + more == (evs + before) + [e];
      RunFollows(opts, evs, before);
      StepFollows(Run(opts, evs + before), e);
      RunOneMore(opts, evs + before, e);
      FollowsTwice(Run(opts, evs), Run(opts, evs + before), Run(opts, evs + more));
    }
  }

  // ---------------------------------------------------------------- whole runs

  lemma CallsAreAdditions(s: State)
    requires Valid(s)
    ensures forall c <- s.calls :: c.entry.serial < |s.added| && s.added[c.entry.serial] == c.entry.cb
  {
  }

  /** After a `remove` no function it names is called any more, on a list of any kind and however the
      run continues, unless it is added again: every such call is of a later addition. */
  lemma {:induction false} RemovedFunctionsAreNotCalled(opts: Options, evs: seq<Event>, cbs: seq<Callback>,
                                                        more: seq<Event>)
    ensures var s, r := Run(opts, evs), Run(opts, (evs + [Remove(cbs)]) + more);
      && s.calls <= r.calls
      && forall k :: |s.calls| <= k < |r.calls| && r.calls[k].entry.cb in cbs ==> r.calls[k].entry.serial >= |s.added|
  {
    hide Step, Valid, Run, Others, FromList, Registered;
    var s, m, r := Run(opts, evs), Run(opts, evs + [Remove(cbs)]), Run(opts, (evs + [Remove(cbs)]) + more);
    RunOneMore(opts, evs, Remove(cbs));
    RunFollows(opts, evs + [Remove(cbs)], more);
    CallsAreAdditions(r);
    if s.list.Some? {
      RemoveRemoves(s, cbs);
      OthersAre(s.list.value, cbs);
    } else {
      RemoveFromDisabled(s, cbs);
    }
    forall k | |s.calls| <= k < |r.calls| && r.calls[k].entry.cb in cbs
      ensures r.calls[k].entry.serial >= |s.added|
    {
      OnlyOthersComeFrom(m, cbs, r.calls[k]);
    }
  }

  lemma OnlyOthersComeFrom(m: State, cbs: seq<Callback>, c: Call)
    requires Valid(m) && FromList(m, c.entry.serial) && c.entry.cb in cbs
    requires forall e <- Listed(m) :: e.cb !in cbs
    requires c.entry.serial < |m.added| ==> m.added[c.entry.serial] == c.entry.cb
    ensures c.entry.serial >= |m.added|
  {
  }

  /** After an `empty` nothing added before it is called any more. */
  lemma {:induction false} EmptyDropsAll(opts: Options, evs: seq<Event>, more: seq<Event>)
    ensures var s, r := Run(opts, evs), Run(opts, (evs + [Empty]) + more);
      && s.calls <= r.calls
      && forall k :: |s.calls| <= k < |r.calls| ==> r.calls[k].entry.serial >= |s.added|
  {
    hide Run, FromList, Valid;
    RunOneMore(opts, evs, Empty);
    RunFollows(opts, evs + [Empty], more);
    var m, r := Run(opts, evs + [Empty]), Run(opts, (evs + [Empty]) + more);
    forall k | |m.calls| <= k < |r.calls| ensures r.calls[k].entry.serial >= |m.added| {
      NothingListed(m, r.calls[k].entry.serial);
    }
  }

  lemma NothingListed(m: State, t: nat)
    requires FromList(m, t) && Listed(m) == []
    ensures t >= |m.added|
  {
  }

  /** After a `disable`, or a `lock` of a list that remembers nothing, nothing is called and nothing
      is added any more, as long as no `empty` revives the list. */
  lemma {:induction false} DisabledForGood(opts: Options, evs: seq<Event>, more: seq<Event>)
    requires Run(opts, evs).list.None? && forall e <- more :: !e.Empty?
    ensures var s, r := Run(opts, evs), Run(opts, evs + more);
      r.list.None? && r.calls == s.calls && r.added == s.added
    decreases |more|
  {
    hide Step, Valid, Run;
    if more == [] {
      assert evs + more == evs;
    } else {
      var before, e := more[..|more|-1], more[|more|-1];
      assert evs + more == (evs + before) + [e];
      assert e in more && forall x <- before :: x in more;
      DisabledForGood(opts, evs, before);
      RunOneMore(opts, evs + before, e);
      DisabledStays(Run(opts, evs + before), e);
    }
  }

  lemma DisabledStays(s: State, e: Event)
    requires Valid(s) && s.list.None? && !e.Empty?
    ensures var r := Step(s, e);
      r.list.None? && r.calls == s.calls && r.added == s.added
  {
    if e.Remove? {
      RemoveNothing(s, e.cbs);
    } else if e.Return? && s.firing {
      var next := s.(firingIndex := s.firingIndex + 1);
      assert Advance(next) == Finish(next);
    }
  }

  /** What disables: `disable` always, and `lock` exactly when nothing is remembered. */
  lemma WhatDisables(s: State)
    requires Valid(s) && s.list.Some?
    ensures Step(s, Disable).list.None? && (Step(s, Lock).list.None? <==> s.memory.None?)
    ensures s.memory.Some? ==> Step(s, Lock) == s.(stack := None)
  {
  }

  // ---------------------------------------------------------------- flags

  /** Every function is on the list after it was pushed. */
  lemma {:induction false} PushedAreThere(s: State, cbs: seq<Callback>)
    requires s.list.Some?
    ensures forall cb :: cb in cbs || Has(s.list.value, cb) <==> Has(PushAll(s, cbs).list.value, cb)
    decreases |cbs|
  {
    if cbs != [] {
      var one := Push(s, cbs[0]);
      PushedIsThere(s, cbs[0]);
      PushedAreThere(one, cbs[1..]);
      assert cbs == [cbs[0]] + cbs[1..];
    }
  }

  lemma PushedIsThere(s: State, cb: Callback)
    requires s.list.Some?
    ensures forall c :: c == cb || Has(s.list.value, c) <==> Has(Push(s, cb).list.value, c)
  {
    var es, r := s.list.value, Push(s, cb);
    if r != s {
      var e := Entry(cb, |s.added|);
      assert r.list.value == es + [e] && e in r.list.value;
      forall c | Has(es, c) ensures Has(r.list.value, c) {
        var x :| x in es && x.cb == c;
        assert x in r.list.value;
      }
    }
  }

  ghost predicate NoTwins(es: seq<Entry>) {
    forall i, j :: 0 <= i < j < |es| ==> es[i].cb != es[j].cb
  }

  /** A firing leaves the list as it is, or clears it. */
  lemma {:induction false} AdvanceLists(s: State)
    requires s.firing && s.firingStart == 0 && s.fired && 0 <= s.firingIndex
    requires s.list.Some? ==> s.firingLength == |s.list.value|
    ensures Advance(s).list == s.list || Listed(Advance(s)) == []
    decreases StackSize(s), 1
  {
    if !(s.list.Some? && s.firingIndex < s.firingLength) {
      assert Advance(s) == Finish(s);
      FinishLists(s);
    }
  }

  lemma {:induction false} FinishLists(s: State)
    requires s.firingStart == 0
    ensures Finish(s).list == s.list || Listed(Finish(s)) == []
    decreases StackSize(s), 0
  {
    if s.list.Some? && s.stack.Some? && s.stack.value != [] {
      var idle, args := s.(firing := false, stack := Some(s.stack.value[1..])), s.stack.value[0];
      assert Finish(s) == Start(idle, args);
      StartLists(idle, args);
    }
  }

  lemma {:induction false} StartLists(s: State, data: Args)
    requires s.list.Some? && s.firingStart <= |s.list.value|
    ensures Start(s, data).list == s.list || Listed(Start(s, data)) == []
    decreases StackSize(s), 2
  {
    var head := s.(memory := if s.opts.memory then Some(data) else None, fired := true, firingIndex := s.firingStart,
                   firingStart := 0, firingLength := |s.list.value|, data := data, firing := true);
    assert Start(s, data) == Advance(head);
    AdvanceLists(head);
  }

  lemma {:induction false} PushNoTwins(s: State, cbs: seq<Callback>)
    requires s.list.Some? && s.opts.unique && NoTwins(s.list.value)
    ensures NoTwins(PushAll(s, cbs).list.value)
    decreases |cbs|
  {
    if cbs != [] {
      assert forall k :: 0 <= k < |s.list.value| ==> s.list.value[k] in s.list.value;
      PushNoTwins(Push(s, cbs[0]), cbs[1..]);
    }
  }

  lemma {:induction false} OthersNoTwins(es: seq<Entry>, cbs: seq<Callback>)
    requires NoTwins(es)
    ensures NoTwins(Others(es, cbs))
    decreases |es|
  {
    if es != [] {
      var rest := es[1..];
      OthersNoTwins(rest, cbs);
      OthersAre(rest, cbs);
      var o := Others(rest, cbs);
      assert forall k :: 0 <= k < |o| ==> o[k] in o && o[k] in rest;
    }
  }

  lemma StepNoTwins(s: State, e: Event)
    requires Valid(s) && s.opts.unique && NoTwins(Listed(s))
    ensures NoTwins(Listed(Step(s, e)))
  {
    hide Advance, Finish, Start, Registered;
    match e
    case Add(cbs) =>
      if s.list.Some? {
        PushNoTwins(s, cbs);
        if !s.firing && s.memory.Some? {
          StartLists(PushAll(s, cbs).(firingStart := |s.list.value|), s.memory.value);
        }
      }
    case Remove(cbs) =>
      if s.list.Some? {
        RemoveAllRemoves(s, cbs);
        OthersNoTwins(s.list.value, cbs);
      } else {
        RemoveNothing(s, cbs);
      }
    case Fire(args) => if s.list.Some? && !(s.fired && s.stack.None?) && !s.firing { StartLists(s, args); }
    case Empty =>
    case Disable =>
    case Lock =>
    case Return(result) =>
      if s.firing {
        if !result && s.opts.stopOnFalse {
          FinishLists(s.(memory := None));
        } else {
          AdvanceLists(s.(firingIndex := s.firingIndex + 1));
        }
      }
  }

  /** A `unique` list never holds a function twice, in any run. */
  lemma {:induction false} UniqueHoldsOnce(opts: Options, evs: seq<Event>)
    requires opts.unique
    ensures NoTwins(Listed(Run(opts, evs)))
    decreases |evs|
  {
    hide Step, Valid;
    if evs != [] {
      hide NoTwins;
      UniqueHoldsOnce(opts, evs[..|evs|-1]);
      StepNoTwins(Run(opts, evs[..|evs|-1]), evs[|evs|-1]);
    }
  }
}
