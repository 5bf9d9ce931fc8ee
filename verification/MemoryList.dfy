/** What a "memory" list that may fire many times promises, the list behind a Deferred's
    progress: fires made by callbacks wait their turn, and none is lost or reordered until the
    list is locked or disabled. */
module MemoryList {
  import opened Wrappers
  import opened Callbacks
  import opened OnceMemory
  import opened RemovedCalls

  /** A list for many firings. */
  predicate IsMemory(o: Options) {
    !o.once && o.memory && !o.stopOnFalse
  }

  /** Whether a fire is run or queued, rather than refused. */
  predicate Accepts(s: State) {
    s.list.Some? && !(s.fired && s.stack.None?)
  }

  /** The arguments of the accepted fires. */
  function Accepted(opts: Options, evs: seq<Event>): seq<Args> {
    if evs == [] then []
    else
      var before, e := evs[..|evs|-1], evs[|evs|-1];
      Accepted(opts, before) + if e.Fire? && Accepts(Run(opts, before)) then [e.args] else []
  }

  /** When `empty` is harmless, as for a "once memory" list. */
  predicate EmptyIsSafe(s: State) {
    if s.firing then s.firingIndex < 0 else s.list.Some? || !s.fired
  }

  ghost predicate EmptiesSafely(opts: Options, evs: seq<Event>) {
    forall k :: 0 <= k < |evs| && evs[k].Empty? ==> EmptyIsSafe(Run(opts, evs[..k]))
  }

  // ---------------------------------------------------------------- rounds

  /** Where a run stood at some moment: its calls, additions and removals so far. */
  datatype Mark = Mark(calls: seq<Call>, added: seq<Callback>, removed: set<nat>)

  function Here(s: State): Mark {
    Mark(s.calls, s.added, s.removed)
  }

  /** What `to` has more than `from`. */
  function Since(from: seq<Call>, to: seq<Call>): (r: seq<Call>)
    requires from <= to
    ensures to == from + r
  {
    to[|from|..]
  }

  /** The calls between two moments belong to one fire: they have its arguments, come in the order
      of addition, and none is of something removed before. */
  ghost predicate IsRound(from: Mark, to: Mark, args: Args) {
    && from.calls <= to.calls && from.added <= to.added && from.removed <= to.removed
    && var calls := Since(from.calls, to.calls);
       && InOrder(calls) && Faithful(calls, to.added, Some(args))
       && forall i :: 0 <= i < |calls| ==> calls[i].entry.serial !in from.removed
  }

  /** And every addition made by then was called between them, or has been removed. */
  ghost predicate CallsAll(from: Mark, to: Mark) {
    && from.calls <= to.calls
    && forall t: nat :: t < |to.added| ==> t in to.removed || WasCalled(Since(from.calls, to.calls), t)
  }

  // ---------------------------------------------------------------- the invariant

  /** The round of fire `r`, which another one follows: `marks` are the moments rounds began. */
  ghost predicate Over(marks: seq<Mark>, fires: seq<Args>, r: nat)
    requires r < |marks| - 1 && r < |fires|
  {
    IsRound(marks[r], marks[r + 1], fires[r]) && CallsAll(marks[r], marks[r + 1])
  }

  ghost predicate Past(fires: seq<Args>, marks: seq<Mark>) {
    && |marks| <= |fires|
    && (marks != [] ==> marks[0].calls == [])
    && forall r :: 0 <= r < |marks| - 1 ==> Over(marks, fires, r)
  }

  ghost predicate Queue(s: State, fires: seq<Args>, marks: seq<Mark>) {
    && |marks| <= |fires|
    && (s.stack.Some? ==> s.list.Some? && s.stack.value == fires[|marks|..])
    && (s.fired <==> marks != [])
    && (marks == [] ==> s.calls == [])
  }

  /** The round that began at `from`, with `pending` still to be called in it. */
  ghost predicate Current(s: State, from: Mark, args: Args, pending: seq<Entry>) {
    && from.calls <= s.calls && from.added <= s.added && from.removed <= s.removed
    && var calls := Since(from.calls, s.calls);
       && History(s.(calls := calls), pending, Some(args))
       && forall i :: 0 <= i < |calls| ==> calls[i].entry.serial !in from.removed
  }

  /** Nothing removed is on the list, and while a new round can still begin, everything else is. */
  ghost predicate Whole(s: State) {
    Fresh(s) && (s.stack.Some? || !s.fired ==> History(s.(calls := []), Listed(s), None))
  }

  ghost predicate Remembers(s: State, fires: seq<Args>, marks: seq<Mark>) {
    && (s.memory.Some? || s.firing ==> s.fired && 0 < |marks| <= |fires|)
    && (s.memory.Some? ==> s.memory.value == fires[|marks|-1])
    && (s.firing ==> s.data == fires[|marks|-1])
    && (s.fired && s.list.Some? && (s.stack.Some? || !s.firing) ==> s.memory.Some?)
  }

  /** What holds throughout, the firing index aside. */
  ghost predicate Common(s: State, fires: seq<Args>, marks: seq<Mark>) {
    IsMemory(s.opts) && Queue(s, fires, marks) && Past(fires, marks) && Whole(s) && Remembers(s, fires, marks)
  }

  /** What the running firing still has to call. */
  ghost function Rest(s: State): seq<Entry> {
    if s.firing then OnceMemory.Pending(s) else []
  }

  ghost predicate Inv(s: State, fires: seq<Args>, marks: seq<Mark>) {
    && Valid(s) && Common(s, fires, marks)
    && (s.fired ==> Current(s, marks[|marks|-1], fires[|marks|-1], Rest(s)))
    && (s.firing && s.list.Some? ==> s.firingIndex < |s.list.value|)
    && (!s.firing && (s.stack.Some? || !s.fired) ==> |marks| == |fires|)
  }

  /** Rounds that begin in a step begin where it begins; those that began before stay. */
  ghost predicate Grown(s: State, marks: seq<Mark>, after: seq<Mark>) {
    marks <= after && forall r :: |marks| <= r < |after| ==> after[r] == Here(s)
  }

  // ---------------------------------------------------------------- the firing loop

  /** The running firing is at its loop head. */
  ghost predicate AtHead(s: State, fires: seq<Args>, marks: seq<Mark>) {
    && s.firing && s.fired && s.firingStart == 0 && 0 <= s.firingIndex && Registered(s)
    && (s.list.Some? ==> s.firingLength == |s.list.value| && s.firingIndex <= |s.list.value|)
    && Common(s, fires, marks)
    && Current(s, marks[|marks|-1], fires[|marks|-1], if s.list.Some? then s.list.value[s.firingIndex..] else [])
  }

  /** What the books depend on: not on the cursors of the loop, nor on what is queued. */
  lemma SameWhole(s: State, r: State)
    requires r.added == s.added && r.removed == s.removed && r.list == s.list
    requires r.stack.Some? || !r.fired ==> s.stack.Some? || !s.fired
    ensures Whole(s) ==> Whole(r)
  {
    hide Ordered, Accounted, Increasing;
  }

  lemma SameCurrent(s: State, r: State, from: Mark, args: Args, pending: seq<Entry>)
    requires r.calls == s.calls && r.added == s.added && r.removed == s.removed
    ensures Current(s, from, args, pending) ==> Current(r, from, args, pending)
  {
    hide Ordered, Accounted;
  }

  lemma SameBooks(s: State, r: State, from: Mark, args: Args, pending: seq<Entry>)
    requires r.calls == s.calls && r.added == s.added && r.removed == s.removed && r.list == s.list
    requires r.stack.Some? || !r.fired ==> s.stack.Some? || !s.fired
    ensures Whole(s) ==> Whole(r)
    ensures Current(s, from, args, pending) ==> Current(r, from, args, pending)
  {
    hide Whole, Current;
    SameWhole(s, r);
    SameCurrent(s, r, from, args, pending);
  }

  lemma ClearedWhole(s: State, r: State)
    requires Whole(s) && r.added == s.added && r.removed == s.removed
    requires Listed(r) == [] && r.fired && r.stack.None?
    ensures Whole(r)
  {
  }

  /** The first pending entry is called in the last round. */
  lemma CurrentCalls(s: State, from: Mark, args: Args, pending: seq<Entry>)
    requires Current(s, from, args, pending) && pending != [] && pending[0].serial !in s.removed
    requires pending[0].serial < |s.added| && s.added[pending[0].serial] == pending[0].cb
    ensures Current(s.(calls := s.calls + [Call(pending[0], args)]), from, args, pending[1..])
  {
    hide Ordered, Accounted;
    var calls := Since(from.calls, s.calls);
    CallFirst(s.(calls := calls), pending, args);
    assert Since(from.calls, s.calls + [Call(pending[0], args)]) == calls + [Call(pending[0], args)];
  }

  lemma ListedIsFresh(s: State, k: nat)
    requires Whole(s) && k < |Listed(s)|
    ensures Listed(s)[k].serial !in s.removed
  {
    assert Listed(s)[k] in Listed(s);
  }

  lemma CallNext(s: State, fires: seq<Args>, marks: seq<Mark>)
    requires AtHead(s, fires, marks) && s.list.Some? && s.firingIndex < s.firingLength
    ensures Inv(Advance(s), fires, marks)
  {
    hide Past, Whole, Current;
    var pending, r := s.list.value[s.firingIndex..], Advance(s);
    ListedIsFresh(s, s.firingIndex);
    assert pending[0] == s.list.value[s.firingIndex] && pending[0] in s.list.value;
    CurrentCalls(s, marks[|marks|-1], s.data, pending);
    SameWhole(s, r);
    assert OnceMemory.Pending(r) == pending[1..];
  }

  /** A round with nothing left to call has called all. */
  lemma RoundIsOver(s: State, from: Mark, args: Args)
    requires Current(s, from, args, [])
    ensures IsRound(from, Here(s), args) && CallsAll(from, Here(s))
  {
  }

  lemma FreshRound(s: State, data: Args)
    requires Whole(s) && s.list.Some? && (s.stack.Some? || !s.fired)
    ensures Current(s, Here(s), data, s.list.value)
  {
    assert Since(s.calls, s.calls) == [];
  }

  /** The state in which the loop of a firing begins. */
  function Head(s: State, data: Args, start: nat): State
    requires s.list.Some?
  {
    s.(memory := Some(data), fired := true, firingIndex := start, firingStart := 0,
       firingLength := |s.list.value|, data := data, firing := true)
  }

  lemma StartIsHead(s: State, data: Args)
    requires s.list.Some? && s.firingStart <= |s.list.value| && s.opts.memory
    ensures Start(s, data) == Advance(Head(s, data, s.firingStart))
  {
  }

  function Unqueued(s: State): State {
    if s.stack.Some? && s.stack.value != [] then s.(stack := Some(s.stack.value[1..])) else s
  }

  lemma PastGrows(fires: seq<Args>, marks: seq<Mark>, m: Mark)
    requires Past(fires, marks) && |marks| < |fires|
    requires if marks == [] then m.calls == []
             else IsRound(marks[|marks|-1], m, fires[|marks|-1]) && CallsAll(marks[|marks|-1], m)
    ensures Past(fires, marks + [m])
  {
    hide IsRound, CallsAll;
    var after := marks + [m];
    forall r | 0 <= r < |after| - 1 ensures Over(after, fires, r) {
      assert r < |marks| - 1 ==> Over(marks, fires, r);
    }
  }

  /** The next round begins with the whole list to call. */
  lemma NextRound(s: State, data: Args, fires: seq<Args>, marks: seq<Mark>)
    requires Registered(s) && Common(s, fires, marks) && s.firingStart == 0 && !s.firing
    requires s.fired ==> Current(s, marks[|marks|-1], fires[|marks|-1], [])
    requires s.list.Some? && (s.stack.Some? || !s.fired) && |marks| < |fires| && data == fires[|marks|]
    ensures AtHead(Head(Unqueued(s), data, 0), fires, marks + [Here(s)])
  {
    hide Increasing, Over, IsRound, CallsAll, Whole, Current, Past;
    var head := Head(Unqueued(s), data, 0);
    assert s.list.value[0..] == s.list.value;
    if s.fired {
      RoundIsOver(s, marks[|marks|-1], fires[|marks|-1]);
    }
    PastGrows(fires, marks, Here(s));
    FreshRound(s, data);
    SameBooks(s, head, Here(s), data, s.list.value);
  }

  /** The next waiting fire takes its turn: the firing is at its loop head again. */
  lemma NextTurn(s: State, fires: seq<Args>, marks: seq<Mark>) returns (head: State)
    requires AtHead(s, fires, marks) && s.firingIndex == s.firingLength
    requires s.list.Some? && s.stack.Some? && s.stack.value != []
    ensures AtHead(head, fires, marks + [Here(s)]) && Finish(s) == Advance(head)
    ensures StackSize(head) < StackSize(s) && Here(head) == Here(s) && head.stack.Some?
  {
    hide Past, Whole, Current;
    assert s.list.value[s.firingIndex..] == [];
    var idle, data := s.(firing := false), s.stack.value[0];
    SameBooks(s, idle, marks[|marks|-1], fires[|marks|-1], []);
    NextRound(idle, data, fires, marks);
    StartIsHead(Unqueued(idle), data);
    head := Head(Unqueued(idle), data, 0);
  }

  /** From the loop head: call the next entry, or let the next queued fire begin. */
  lemma {:induction false} AdvanceKeeps(s: State, fires: seq<Args>, marks: seq<Mark>) returns (after: seq<Mark>)
    requires AtHead(s, fires, marks)
    ensures Inv(Advance(s), fires, after) && Grown(s, marks, after) && (s.stack.None? ==> after == marks)
    decreases StackSize(s)
  {
    hide Common, Current, Inv, Registered;
    after := marks;
    if s.list.Some? && s.firingIndex < s.firingLength {
      CallNext(s, fires, marks);
    } else {
      assert Advance(s) == Finish(s);
      if s.list.Some? && s.stack.Some? && s.stack.value != [] {
        var head := NextTurn(s, fires, marks);
        after := AdvanceKeeps(head, fires, marks + [Here(s)]);
      } else {
        NoMoreRounds(s, fires, marks);
      }
    }
  }

  lemma NoMoreRounds(s: State, fires: seq<Args>, marks: seq<Mark>)
    requires AtHead(s, fires, marks) && (s.list.Some? ==> s.firingIndex == s.firingLength)
    requires s.list.None? || s.stack.None? || s.stack.value == []
    ensures Inv(Finish(s), fires, marks)
  {
    hide Whole, Current, Past;
    assert s.list.Some? ==> s.list.value[s.firingIndex..] == [];
    var r := Finish(s);
    SameCurrent(s, r, marks[|marks|-1], fires[|marks|-1], []);
    if r.list == s.list {
      SameWhole(s, r);
    } else {
      ClearedWhole(s, r);
    }
  }

  // ---------------------------------------------------------------- fire

  lemma PastOfMore(fires: seq<Args>, args: Args, marks: seq<Mark>)
    requires Past(fires, marks)
    ensures Past(fires + [args], marks)
  {
    hide IsRound, CallsAll;
    forall r | 0 <= r < |marks| - 1 ensures Over(marks, fires + [args], r) {
      assert Over(marks, fires, r);
    }
  }

  lemma FireBegins(s: State, args: Args, fires: seq<Args>, marks: seq<Mark>) returns (after: seq<Mark>)
    requires Inv(s, fires, marks) && Accepts(s) && !s.firing
    ensures Inv(FireWith(s, args), fires + [args], after) && Grown(s, marks, after)
  {
    hide Ordered, Accounted, Increasing, Past, Whole, Current;
    var all, ready := fires + [args], if s.stack.Some? then s.(stack := Some([args])) else s;
    PastOfMore(fires, args, marks);
    assert fires[|marks|..] == [] && all[|marks|..] == [args];
    assert [args][1..] == [];
    assert Unqueued(ready) == s;
    SameBooks(s, ready, if s.fired then marks[|marks|-1] else Here(s), if s.fired then fires[|marks|-1] else 0, []);
    NextRound(ready, args, all, marks);
    StartIsHead(s, args);
    after := AdvanceKeeps(Head(s, args, 0), all, marks + [Here(s)]);
  }

  /** A fire from inside a callback goes behind those that wait. */
  lemma QueueGrows(s: State, r: State, args: Args, fires: seq<Args>, marks: seq<Mark>)
    requires Inv(s, fires, marks) && s.firing && s.stack.Some?
    requires r == s.(stack := r.stack) && r.stack.Some? && r.stack.value == s.stack.value + [args]
    ensures Inv(r, fires + [args], marks)
  {
    hide Ordered, Accounted, Increasing, Past, Whole, Current;
    PastOfMore(fires, args, marks);
    assert (fires + [args])[|marks|..] == fires[|marks|..] + [args];
    SameBooks(s, r, marks[|marks|-1], fires[|marks|-1], Rest(s));
  }

  lemma FireKeeps(s: State, args: Args, fires: seq<Args>, marks: seq<Mark>) returns (after: seq<Mark>)
    requires Inv(s, fires, marks)
    ensures Inv(FireWith(s, args), if Accepts(s) then fires + [args] else fires, after) && Grown(s, marks, after)
  {
    hide Common, Current;
    after := marks;
    if Accepts(s) {
      if s.firing {
        QueueGrows(s, FireWith(s, args), args, fires, marks);
      } else {
        after := FireBegins(s, args, fires, marks);
      }
    }
  }

  // ---------------------------------------------------------------- add

  /** Pushing puts the new entries on the list. */
  lemma PushWhole(s: State, cbs: seq<Callback>)
    requires s.list.Some? && Whole(s)
    ensures Whole(PushAll(s, cbs))
  {
    hide Ordered, Accounted, Fresh;
    PushFresh(s, cbs);
    PushAllAppends(s, cbs);
    var r := PushAll(s, cbs);
    if s.stack.Some? || !s.fired {
      AppendKeeps(s.(calls := []), s.list.value, r.list.value, r.added, None);
    }
  }

  /** And behind what is left of the last round. */
  lemma PushCurrent(s: State, cbs: seq<Callback>, from: Mark, args: Args, cut: nat)
    requires s.list.Some? && cut <= |s.list.value| && Current(s, from, args, s.list.value[cut..])
    ensures var r := PushAll(s, cbs);
      && |s.list.value| <= |r.list.value| && Current(r, from, args, r.list.value[cut..])
  {
    hide Ordered, Accounted;
    PushAllAppends(s, cbs);
    var r := PushAll(s, cbs);
    AppendKeeps(s.(calls := Since(from.calls, s.calls)), s.list.value[cut..], r.list.value[cut..], r.added, Some(args));
  }

  /** After a push the books are in order, with the new entries behind what is left. */
  ghost predicate Pushed(s: State, fires: seq<Args>, marks: seq<Mark>, cut: nat) {
    && s.list.Some? && cut <= |s.list.value| && Registered(s)
    && Queue(s, fires, marks) && Past(fires, marks) && Whole(s)
    && (s.fired ==> Current(s, marks[|marks|-1], fires[|marks|-1], s.list.value[cut..]))
  }

  function Cut(s: State): int {
    if s.firing then s.firingIndex + 1 else |Listed(s)|
  }

  lemma {:induction false} PushedIsReady(s: State, cbs: seq<Callback>, fires: seq<Args>, marks: seq<Mark>)
    requires Inv(s, fires, marks) && s.list.Some?
    ensures var pushed := PushAll(s, cbs);
      && 0 <= Cut(s) && pushed == s.(list := pushed.list, added := pushed.added)
      && Pushed(pushed, fires, marks, Cut(s))
  {
    hide Ordered, Accounted, Increasing, PushAll, Whole, Current, Past, Registered;
    PushAllAppends(s, cbs);
    PushWhole(s, cbs);
    assert s.list.value[Cut(s)..] == Rest(s);
    if s.fired {
      PushCurrent(s, cbs, marks[|marks|-1], fires[|marks|-1], Cut(s));
    }
  }

  lemma AddKeeps(s: State, cbs: seq<Callback>, fires: seq<Args>, marks: seq<Mark>)
    requires Inv(s, fires, marks)
    ensures Inv(AddAll(s, cbs), fires, marks)
  {
    hide Common, Current, Pushed, Registered, PushAll;
    if s.list.Some? {
      var pushed := PushAll(s, cbs);
      PushedIsReady(s, cbs, fires, marks);
      if s.firing {
        FiringGrows(s, pushed, fires, marks);
      } else if s.memory.Some? {
        NewPartFires(s, pushed, fires, marks);
      } else {
        NothingFires(s, pushed, fires, marks);
      }
    }
  }

  lemma FiringGrows(s: State, pushed: State, fires: seq<Args>, marks: seq<Mark>)
    requires Inv(s, fires, marks) && s.list.Some? && s.firing
    requires pushed == s.(list := pushed.list, added := pushed.added)
    requires Pushed(pushed, fires, marks, s.firingIndex + 1)
    ensures Inv(pushed.(firingLength := |pushed.list.value|), fires, marks)
  {
    hide Ordered, Accounted, Increasing, Whole, Current, Past;
    var r := pushed.(firingLength := |pushed.list.value|);
    assert Rest(r) == pushed.list.value[s.firingIndex + 1..];
    SameBooks(pushed, r, marks[|marks|-1], fires[|marks|-1], Rest(r));
  }

  /** An idle list that remembers a fire calls the new part with its arguments, in the same round. */
  lemma NewPartFires(s: State, pushed: State, fires: seq<Args>, marks: seq<Mark>)
    requires Inv(s, fires, marks) && s.list.Some? && !s.firing && s.memory.Some?
    requires pushed == s.(list := pushed.list, added := pushed.added)
    requires Pushed(pushed, fires, marks, |s.list.value|)
    ensures Inv(Start(pushed.(firingStart := |s.list.value|), s.memory.value), fires, marks)
  {
    hide Ordered, Accounted, Increasing, Whole, Current, Past, Start, Advance;
    var cut := |s.list.value|;
    var head := Head(pushed, s.memory.value, cut);
    SameBooks(pushed, head, marks[|marks|-1], fires[|marks|-1], pushed.list.value[cut..]);
    StartIsHead(pushed.(firingStart := cut), s.memory.value);
    assert Head(pushed.(firingStart := cut), s.memory.value, cut) == head;
    var after := AdvanceKeeps(head, fires, marks);
    assert after == marks;
  }

  lemma NothingFires(s: State, pushed: State, fires: seq<Args>, marks: seq<Mark>)
    requires Inv(s, fires, marks) && s.list.Some? && !s.firing && s.memory.None?
    requires pushed == s.(list := pushed.list, added := pushed.added)
    requires Pushed(pushed, fires, marks, |s.list.value|)
    ensures Inv(pushed, fires, marks)
  {
    hide Ordered, Accounted, Increasing, Whole, Current, Past;
  }

  // ---------------------------------------------------------------- remove

  /** Removing a callback from what is left of the last round. */
  lemma FilterBooks(s: State, cb: Callback, from: Mark, args: Args, pending: seq<Entry>, r: State)
    requires s.list.Some? && Whole(s) && Current(s, from, args, pending)
    requires forall e <- pending :: e in s.list.value
    requires r.added == s.added && r.removed == s.removed + SerialsOf(s.list.value, cb) && r.calls == s.calls
    ensures Current(r, from, args, Without(pending, cb))
  {
    hide Ordered, Accounted, Increasing;
    FilterKeeps(s.(calls := Since(from.calls, s.calls)), pending, cb, r.removed, Some(args));
  }

  lemma FilterWhole(s: State, cb: Callback)
    requires s.list.Some? && Whole(s)
    ensures var es := s.list.value;
      Whole(s.(list := Some(Without(es, cb)), removed := s.removed + SerialsOf(es, cb)))
  {
    hide Ordered, Accounted, Increasing, Without;
    var es := s.list.value;
    FilterFresh(s, cb);
    if s.stack.Some? || !s.fired {
      FilterKeeps(s.(calls := []), es, cb, s.removed + SerialsOf(es, cb), None);
    }
  }

  lemma RemoveOneKeeps(s: State, cb: Callback, fires: seq<Args>, marks: seq<Mark>)
    requires Inv(s, fires, marks)
    ensures Inv(RemoveOne(s, cb), fires, marks)
  {
    hide Ordered, Accounted, Increasing, Whole, Current, Past;
    var r := RemoveOne(s, cb);
    RemoveKeepsPlace(s, cb);
    if s.list.Some? {
      var gone := s.(list := r.list, removed := r.removed);
      FilterWhole(s, cb);
      if s.fired {
        assert forall e <- Rest(s) :: e in s.list.value;
        FilterBooks(s, cb, marks[|marks|-1], fires[|marks|-1], Rest(s), gone);
        SameBooks(gone, r, marks[|marks|-1], fires[|marks|-1], Rest(r));
      } else {
        SameBooks(gone, r, Here(s), 0, []);
      }
    }
  }

  lemma {:induction false} RemoveKeeps(s: State, cbs: seq<Callback>, fires: seq<Args>, marks: seq<Mark>)
    requires Inv(s, fires, marks)
    ensures Inv(RemoveAll(s, cbs), fires, marks)
    decreases |cbs|
  {
    hide Common, Current;
    if cbs != [] {
      RemoveOneKeeps(s, cbs[0], fires, marks);
      RemoveKeeps(RemoveOne(s, cbs[0]), cbs[1..], fires, marks);
    }
  }

  // ---------------------------------------------------------------- empty, disable, lock

  /** When the list goes, everything on it counts as removed. */
  lemma DropBooks(s: State, fires: seq<Args>, marks: seq<Mark>, r: State)
    requires Inv(s, fires, marks) && (r.list.None? || r.list.value == []) && r.calls == s.calls
    requires r.added == s.added && r.removed == s.removed + AllSerials(s)
    requires r.fired == s.fired && (r.stack == s.stack || r.stack.None?)
    ensures Whole(r)
    ensures s.fired ==> Current(r, marks[|marks|-1], fires[|marks|-1], [])
  {
    hide Ordered, Accounted, Past;
    assert forall e <- Listed(s) :: e.serial in r.removed;
    if s.fired {
      assert forall e <- Rest(s) :: e in Listed(s);
      DropKeeps(s.(calls := Since(marks[|marks|-1].calls, s.calls)), Rest(s), r.removed, Some(fires[|marks|-1]));
    }
    if s.stack.Some? || !s.fired {
      DropKeeps(s.(calls := []), Listed(s), r.removed, None);
    }
  }

  /** A harmless `empty`, and any `disable` */
  lemma DropKeepsBooks(s: State, r: State, fires: seq<Args>, marks: seq<Mark>)
    requires Inv(s, fires, marks)
    requires (r == EmptyList(s) && EmptyIsSafe(s)) || r == DisableNow(s)
    ensures Inv(r, fires, marks)
  {
    hide Ordered, Accounted, Increasing, Whole, Current, Past;
    DropBooks(s, fires, marks, r);
    assert Rest(r) == [];
  }

  lemma LockKeeps(s: State, fires: seq<Args>, marks: seq<Mark>)
    requires Inv(s, fires, marks)
    ensures Inv(LockNow(s), fires, marks)
  {
    hide Ordered, Accounted, Increasing, Past;
    if s.memory.None? {
      assert LockNow(s) == DisableNow(s);
      DropKeepsBooks(s, DisableNow(s), fires, marks);
    }
  }

  // ---------------------------------------------------------------- whole runs

  lemma ReturnKeeps(s: State, result: bool, fires: seq<Args>, marks: seq<Mark>) returns (after: seq<Mark>)
    requires Inv(s, fires, marks) && s.firing
    ensures Inv(ReturnFrom(s, result), fires, after) && Grown(s, marks, after)
  {
    hide Ordered, Accounted, Increasing, Whole, Past, Current, Advance;
    var head := s.(firingIndex := s.firingIndex + 1);
    SameBooks(s, head, marks[|marks|-1], fires[|marks|-1], Rest(s));
    assert Rest(s) == if s.list.Some? then s.list.value[head.firingIndex..] else [];
    after := AdvanceKeeps(head, fires, marks);
  }

  /** A step keeps the rounds there are; only a fire or a return begins new ones. */
  lemma StepKeeps(s: State, e: Event, fires: seq<Args>, marks: seq<Mark>) returns (after: seq<Mark>)
    requires Inv(s, fires, marks) && (e.Empty? ==> EmptyIsSafe(s))
    ensures Inv(Step(s, e), if e.Fire? && Accepts(s) then fires + [e.args] else fires, after)
    ensures Grown(s, marks, after) && (after == marks || e.Fire? || e.Return?)
  {
    hide Common, Current, AddAll, RemoveAll, FireWith, EmptyList, DisableNow, LockNow;
    after := marks;
    match e
    case Add(cbs) => AddKeeps(s, cbs, fires, marks);
    case Remove(cbs) => RemoveKeeps(s, cbs, fires, marks);
    case Fire(args) => after := FireKeeps(s, args, fires, marks);
    case Empty => DropKeepsBooks(s, EmptyList(s), fires, marks);
    case Disable => DropKeepsBooks(s, DisableNow(s), fires, marks);
    case Lock => LockKeeps(s, fires, marks);
    case Return(result) =>
      if s.firing {
        after := ReturnKeeps(s, result, fires, marks);
      }
  }

  /** The moments rounds began are those of a run: before the events numbered by `begins`. */
  ghost predicate Tied(opts: Options, evs: seq<Event>, begins: seq<nat>, marks: seq<Mark>) {
    && |begins| == |marks|
    && (forall r :: 0 <= r < |begins| ==> begins[r] < |evs| && (evs[begins[r]].Fire? || evs[begins[r]].Return?))
    && (forall q, r :: 0 <= q < r < |begins| ==> begins[q] <= begins[r])
    && (forall r :: 0 <= r < |begins| && begins[r] < |evs| ==> marks[r] == Here(Run(opts, evs[..begins[r]])))
  }

  lemma TiedGrows(opts: Options, evs: seq<Event>, begins: seq<nat>, marks: seq<Mark>, more: seq<Mark>)
    returns (after: seq<nat>)
    requires evs != [] && Tied(opts, evs[..|evs|-1], begins, marks)
    requires Grown(Run(opts, evs[..|evs|-1]), marks, more)
    requires more == marks || evs[|evs|-1].Fire? || evs[|evs|-1].Return?
    ensures Tied(opts, evs, after, more)
  {
    hide Run;
    var before := evs[..|evs|-1];
    after := begins + seq(|more| - |marks|, _ => |before|);
    forall r | 0 <= r < |after|
      ensures after[r] < |evs| && (evs[after[r]].Fire? || evs[after[r]].Return?)
      ensures more[r] == Here(Run(opts, evs[..after[r]]))
    {
      if r < |begins| {
        assert evs[..begins[r]] == before[..begins[r]];
      }
    }
  }

  lemma EmptiesBefore(opts: Options, evs: seq<Event>)
    requires evs != [] && EmptiesSafely(opts, evs)
    ensures EmptiesSafely(opts, evs[..|evs|-1])
    ensures evs[|evs|-1].Empty? ==> EmptyIsSafe(Run(opts, evs[..|evs|-1]))
  {
    hide Run, EmptyIsSafe;
    var before := evs[..|evs|-1];
    forall k | 0 <= k < |before| && before[k].Empty? ensures EmptyIsSafe(Run(opts, before[..k])) {
      assert evs[..k] == before[..k];
    }
  }

  lemma {:induction false} RunKeeps(opts: Options, evs: seq<Event>) returns (begins: seq<nat>, marks: seq<Mark>)
    requires IsMemory(opts) && EmptiesSafely(opts, evs)
    ensures Inv(Run(opts, evs), Accepted(opts, evs), marks) && Tied(opts, evs, begins, marks)
    decreases |evs|
  {
    begins, marks := [], [];
    if evs != [] {
      hide Inv, Step, Tied, EmptiesSafely, EmptyIsSafe;
      var before, e := evs[..|evs|-1], evs[|evs|-1];
      EmptiesBefore(opts, evs);
      var s, fires := Run(opts, before), Accepted(opts, before);
      assert Run(opts, evs) == Step(s, e);
      assert Accepted(opts, evs) == fires + if e.Fire? && Accepts(s) then [e.args] else [];
      assert fires + [] == fires;
      hide Run, Accepted, Accepts;
      begins, marks := RunKeeps(opts, before);
      var more := StepKeeps(s, e, fires, marks);
      begins := TiedGrows(opts, evs, begins, marks, more);
      marks := more;
    }
  }

  /** Where the run stood when round `r` began, and where when the next one did, or stands now. */
  function From(opts: Options, evs: seq<Event>, begins: seq<nat>, r: nat): Mark
    requires r < |begins| && begins[r] <= |evs|
  {
    Here(Run(opts, evs[..begins[r]]))
  }

  function To(opts: Options, evs: seq<Event>, begins: seq<nat>, r: nat): Mark
    requires r < |begins| && (r + 1 < |begins| ==> begins[r + 1] <= |evs|)
  {
    if r + 1 < |begins| then From(opts, evs, begins, r + 1) else Here(Run(opts, evs))
  }

  /** Every accepted fire of a run gets its own round, in the order the fires came: `begins` numbers
      the fires and returns that begin the rounds. From there to where the next round begins, or to
      now, the calls have the fire's arguments, come in the order of addition, and none is of
      something removed before the round. A round that another one follows, and the last one between
      firings, has called every addition made by then and not removed by then. As long as the list is
      neither locked nor disabled the fires without a round are waiting, and between firings none is. */
  lemma {:induction false} EveryFireGetsItsRound(opts: Options, evs: seq<Event>) returns (begins: seq<nat>)
    requires IsMemory(opts) && EmptiesSafely(opts, evs)
    ensures var s, fires := Run(opts, evs), Accepted(opts, evs);
      && |begins| <= |fires| && (s.fired <==> begins != [])
      && (forall r :: 0 <= r < |begins| ==> begins[r] < |evs| && (evs[begins[r]].Fire? || evs[begins[r]].Return?))
      && (forall q, r :: 0 <= q < r < |begins| ==> begins[q] <= begins[r])
      && (if begins == [] then s.calls == [] else From(opts, evs, begins, 0).calls == [])
      && (forall r :: 0 <= r < |begins| ==>
            && IsRound(From(opts, evs, begins, r), To(opts, evs, begins, r), fires[r])
            && (r + 1 < |begins| || !s.firing ==> CallsAll(From(opts, evs, begins, r), To(opts, evs, begins, r))))
      && (s.stack.Some? ==> s.stack.value == fires[|begins|..])
      && (!s.firing && s.stack.Some? ==> |begins| == |fires|)
  {
    var marks;
    begins, marks := RunKeeps(opts, evs);
    var s, fires := Run(opts, evs), Accepted(opts, evs);
    hide Run, Accepted, Whole, Current, IsRound, CallsAll, Valid;
    forall r | 0 <= r < |begins|
      ensures IsRound(From(opts, evs, begins, r), To(opts, evs, begins, r), fires[r])
      ensures r + 1 < |begins| || !s.firing ==> CallsAll(From(opts, evs, begins, r), To(opts, evs, begins, r))
    {
      if r + 1 < |begins| {
        assert Over(marks, fires, r);
      } else {
        CurrentIsRound(s, marks[r], fires[r], Rest(s));
      }
    }
  }

  lemma CurrentIsRound(s: State, from: Mark, args: Args, pending: seq<Entry>)
    requires Current(s, from, args, pending)
    ensures IsRound(from, Here(s), args) && (pending == [] ==> CallsAll(from, Here(s)))
  {
  }

  /** The guard on `empty` is exact: an addition right after it is called in the last round, before
      any waiting fire begins, precisely when that `empty` was harmless. */
  lemma {:induction false} EmptyLosesFromRound(opts: Options, evs: seq<Event>, cb: Callback)
    requires IsMemory(opts) && EmptiesSafely(opts, evs) && Run(opts, evs).fired
    ensures var s := Run(opts, evs);
      var r := Step(Step(Step(s, Empty), Add([cb])), Return(true));
      && r.added == s.added + [cb] && |s.added| !in r.removed
      && (WasCalled(r.calls, |s.added|) && r.stack == s.stack <==> EmptyIsSafe(s))
  {
    hide Past, Current, Accepted, Tied;
    var _, marks := RunKeeps(opts, evs);
    var s := Run(opts, evs);
    hide Run;
    EmptyThenAdd(s, cb);
    var r := Step(Step(Step(s, Empty), Add([cb])), Return(true));
    assert !WasCalled(s.calls, |s.added|);
    assert EmptyIsSafe(s) ==> r.calls[|s.calls|].entry.serial == |s.added|;
  }

  lemma EmptyThenAdd(s: State, cb: Callback)
    requires Valid(s) && IsMemory(s.opts) && s.fired && (!s.firing ==> StackSize(s) == 0)
    requires !s.firing ==> s.list.Some? == s.memory.Some?
    ensures var r := Step(Step(Step(s, Empty), Add([cb])), Return(true));
      && r.added == s.added + [cb] && r.removed == s.removed + AllSerials(s)
      && (EmptyIsSafe(s) ==>
            r.stack == s.stack && exists c :: r.calls == s.calls + [c] && c.entry.serial == |s.added|)
      && (!EmptyIsSafe(s) ==> r.calls == s.calls || r.stack != s.stack)
  {
    PushOnEmpty(EmptyList(s), cb);
    if s.firing {
      FiringEmptyThenAdd(s, cb);
    } else if s.list.Some? {
      IdleEmptyThenAdd(s, cb);
    }
  }
}
