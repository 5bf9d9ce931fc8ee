/** Which progress callbacks a Deferred runs: one round for each notify made before it settled. */
module ProgressRuns {
  import opened Wrappers
  import opened Callbacks
  import opened Deferred
  import opened Sequences
  import SettlingList
  import DeferredRuns
  import OnceMemory
  import MemoryList
  import LockedList
  import Attached

  /** What one event of the Deferred does to its progress list. */
  function ProgressStep(d: DState, e: DEvent): Option<Event>
    requires ValidD(d)
  {
    match e
    case Attach(l, ids) => if Busy(d) || l != ProgressList then None else Some(Add(Users(ids)))
    case Trigger(l, args) => if Busy(d) || l != ProgressList then None else Some(Fire(args))
    case Leave(result) =>
      if Busy(d) || d.frames == [] || d.frames[|d.frames|-1] != ProgressList then None else Some(Return(result))
    case Tick => if Busy(d) && Current(Innermost(d)) == LockList(ProgressList) then Some(Lock) else None
  }

  function Just<T>(x: Option<T>): seq<T> {
    if x.Some? then [x.value] else []
  }

  function ProgressEvents(evs: seq<DEvent>): seq<Event> {
    if evs == [] then []
    else ProgressEvents(evs[..|evs|-1]) + Just(ProgressStep(DRun(evs[..|evs|-1]), evs[|evs|-1]))
  }

  lemma StepMovesProgress(d: DState, e: DEvent, first: DeferredRuns.First)
    requires ValidD(d) && DeferredRuns.Inv(d, first)
    ensures var p, x := d.lists[ProgressList], ProgressStep(d, e);
      DStep(d, e).lists[ProgressList] == if x.Some? then Step(p, x.value) else p
  {
    hide Step, Valid, SettlingList.Fired, SettlingList.Waiting, SettlingList.Dead, Internals;
    DeferredRuns.BusyMeansSettling(d, first);
    if Busy(d) {
      SettlingList.CurrentOf(d.lists[first.winner], first.winner, first.args);
      DeferredRuns.InternalsAre(first.winner);
    }
  }

  lemma {:induction false} RunJust(opts: Options, evs: seq<Event>, x: Option<Event>)
    ensures Run(opts, evs + Just(x)) == if x.Some? then Step(Run(opts, evs), x.value) else Run(opts, evs)
  {
    hide Step;
    if x.Some? {
      assert (evs + Just(x))[..|evs|] == evs;
    } else {
      assert evs + Just(x) == evs;
    }
  }

  /** The progress list of a run is the list of its own events. */
  lemma {:induction false} ProgressIsRun(evs: seq<DEvent>)
    ensures DRun(evs).lists[ProgressList] == Run(MEMORY, ProgressEvents(evs))
    decreases |evs|
  {
    hide Step, Valid, DStep, ProgressStep, Init, DeferredRuns.Inv;
    if evs != [] {
      hide Run;
      var before, e := evs[..|evs|-1], evs[|evs|-1];
      ProgressIsRun(before);
      DeferredRuns.RunKeeps(before);
      StepMovesProgress(DRun(before), e, DeferredRuns.FirstSettle(before));
      RunJust(MEMORY, ProgressEvents(before), ProgressStep(DRun(before), e));
    }
  }

  // ---------------------------------------------------------------- the accepted notifies

  /** The arguments of every notify made before the first resolve or reject. */
  function Notifies(evs: seq<DEvent>): seq<Args> {
    if evs == [] then []
    else
      var before, e := evs[..|evs|-1], evs[|evs|-1];
      Notifies(before) +
        if e.Trigger? && e.target == ProgressList && DeferredRuns.FirstSettle(before).Nobody? then [e.args] else []
  }

  /** What one more event adds to what the progress list has accepted. */
  function Taken(s: State, x: Option<Event>): seq<Args> {
    if x.Some? && x.value.Fire? && MemoryList.Accepts(s) then [x.value.args] else []
  }

  lemma {:induction false} AcceptedJust(evs: seq<Event>, x: Option<Event>)
    ensures MemoryList.Accepted(MEMORY, evs + Just(x)) ==
      MemoryList.Accepted(MEMORY, evs) + Taken(Run(MEMORY, evs), x)
  {
    hide Run;
    if x.Some? {
      assert (evs + Just(x))[..|evs|] == evs;
    } else {
      assert evs + Just(x) == evs;
    }
  }

  lemma TakenIsNotify(d: DState, e: DEvent, first: DeferredRuns.First)
    requires ValidD(d) && DeferredRuns.Inv(d, first)
    ensures Taken(d.lists[ProgressList], ProgressStep(d, e)) ==
      if e.Trigger? && e.target == ProgressList && first.Nobody? then [e.args] else []
  {
    DeferredRuns.BusyMeansSettling(d, first);
  }

  /** The progress list accepts exactly the notifies made before the first resolve or reject. */
  lemma {:induction false} AcceptedAreNotifies(evs: seq<DEvent>)
    ensures MemoryList.Accepted(MEMORY, ProgressEvents(evs)) == Notifies(evs)
    decreases |evs|
  {
    if evs != [] {
      hide DeferredRuns.Inv, Run, DRun, Taken, ProgressStep, MemoryList.Accepted;
      var before, e := evs[..|evs|-1], evs[|evs|-1];
      AcceptedAreNotifies(before);
      DeferredRuns.RunKeeps(before);
      ProgressIsRun(before);
      AcceptedJust(ProgressEvents(before), ProgressStep(DRun(before), e));
      TakenIsNotify(DRun(before), e, DeferredRuns.FirstSettle(before));
    }
  }

  // ---------------------------------------------------------------- nothing is removed

  /** Only a list locked before it ever fired counts its entries as removed; one that has fired is
      never disabled. */
  ghost predicate Untouched(s: State) {
    && (s.removed != {} ==> s.list.None? && !s.fired)
    && (s.fired ==> s.list.Some? && s.memory.Some?)
    && (s.memory.Some? ==> s.fired)
  }

  lemma {:induction false} AdvanceUntouched(s: State)
    requires s.firing && s.fired && s.firingStart == 0 && 0 <= s.firingIndex && s.opts.memory && s.removed == {}
    requires s.list.Some? && s.memory.Some? && s.firingLength == |s.list.value|
    ensures Untouched(Advance(s))
    decreases StackSize(s)
  {
    if s.firingIndex >= s.firingLength {
      assert Advance(s) == Finish(s);
      if s.stack.Some? && s.stack.value != [] {
        var idle, args := s.(firing := false, stack := Some(s.stack.value[1..])), s.stack.value[0];
        assert Finish(s) == Start(idle, args) == Advance(MemoryList.Head(idle, args, 0)) by {
          assert s.firingStart == 0;
        }
        AdvanceUntouched(MemoryList.Head(idle, args, 0));
      }
    }
  }

  lemma StepUntouched(s: State, x: Event)
    requires Valid(s) && Untouched(s) && (x.Add? || x.Fire? || x.Return? || x.Lock?)
    requires s.opts.memory && !s.opts.stopOnFalse
    ensures Untouched(Step(s, x))
  {
    hide Registered, Advance, Start;
    match x
    case Add(cbs) =>
      if s.list.Some? && !s.firing && s.memory.Some? {
        var pushed, args := PushAll(s, cbs), s.memory.value;
        MemoryList.StartIsHead(pushed.(firingStart := |s.list.value|), args);
        AdvanceUntouched(MemoryList.Head(pushed, args, |s.list.value|));
      }
    case Fire(args) =>
      if s.list.Some? && !(s.fired && s.stack.None?) && !s.firing {
        MemoryList.StartIsHead(s, args);
        AdvanceUntouched(MemoryList.Head(s, args, 0));
      }
    case Return(result) => if s.firing { AdvanceUntouched(s.(firingIndex := s.firingIndex + 1)); }
    case _ =>
  }

  lemma EventUntouched(d: DState, e: DEvent, first: DeferredRuns.First)
    requires ValidD(d) && DeferredRuns.Inv(d, first) && Untouched(d.lists[ProgressList])
    ensures Untouched(DStep(d, e).lists[ProgressList])
    ensures var x := ProgressStep(d, e);
      x.Some? ==> x.value.Add? || x.value.Fire? || x.value.Return? || x.value.Lock?
  {
    hide Step, DStep, Untouched;
    StepMovesProgress(d, e, first);
    var x := ProgressStep(d, e);
    if x.Some? {
      StepUntouched(d.lists[ProgressList], x.value);
    }
  }

  lemma {:induction false} NothingRemoved(evs: seq<DEvent>)
    ensures Untouched(DRun(evs).lists[ProgressList])
    ensures forall x <- ProgressEvents(evs) :: !x.Empty?
    decreases |evs|
  {
    hide Valid, DStep, ProgressStep, DeferredRuns.Inv;
    if evs != [] {
      hide Untouched;
      var before, e := evs[..|evs|-1], evs[|evs|-1];
      NothingRemoved(before);
      DeferredRuns.RunKeeps(before);
      EventUntouched(DRun(before), e, DeferredRuns.FirstSettle(before));
    }
  }

  lemma {:induction false} EmptiesNothing(evs: seq<DEvent>)
    ensures MemoryList.EmptiesSafely(MEMORY, ProgressEvents(evs))
  {
    NothingRemoved(evs);
    assert forall k :: 0 <= k < |ProgressEvents(evs)| ==> ProgressEvents(evs)[k] in ProgressEvents(evs);
  }

  // ---------------------------------------------------------------- full rounds

  /** The calls between two moments are those of the first additions, in order, with `args`. */
  ghost predicate InFull(from: seq<Call>, to: seq<Call>, added: seq<Callback>, args: Args) {
    && from <= to
    && var calls := MemoryList.Since(from, to);
       && |calls| <= |added| && forall i :: 0 <= i < |calls| ==> calls[i] == Call(Entry(added[i], i), args)
  }

  /** Calls in order and without gaps are those of the first additions. */
  lemma {:induction false} NoGaps(calls: seq<Call>, k: nat)
    requires OnceMemory.InOrder(calls) && k < |calls|
    requires forall t: nat :: t < calls[|calls|-1].entry.serial ==> OnceMemory.WasCalled(calls, t)
    ensures calls[k].entry.serial == k
    decreases k
  {
    if k > 0 {
      NoGaps(calls, k - 1);
    }
    if calls[k].entry.serial > k {
      assert OnceMemory.WasCalled(calls, k);
    }
  }

  /** Such calls are as many as the additions they reach. */
  lemma FullIf(calls: seq<Call>, added: seq<Callback>, args: Args)
    requires OnceMemory.InOrder(calls) && OnceMemory.Faithful(calls, added, Some(args))
    requires calls != [] ==>
      forall t: nat :: t < calls[|calls|-1].entry.serial ==> OnceMemory.WasCalled(calls, t)
    ensures InFull([], calls, added, args)
    ensures |calls| < |added| ==> !OnceMemory.WasCalled(calls, |calls|)
  {
    forall k | 0 <= k < |calls| ensures calls[k].entry.serial == k {
      NoGaps(calls, k);
    }
    if calls != [] {
      assert calls[|calls|-1].entry.serial == |calls| - 1;
    }
  }

  lemma PastIsFull(from: MemoryList.Mark, to: MemoryList.Mark, args: Args)
    requires MemoryList.IsRound(from, to, args) && MemoryList.CallsAll(from, to) && to.removed == {}
    ensures InFull(from.calls, to.calls, to.added, args)
    ensures |MemoryList.Since(from.calls, to.calls)| == |to.added|
  {
    FullIf(MemoryList.Since(from.calls, to.calls), to.added, args);
  }

  lemma CurrentIsFull(s: State, from: MemoryList.Mark, args: Args, pending: seq<Entry>)
    requires MemoryList.Current(s, from, args, pending) && s.removed == {}
    ensures InFull(from.calls, s.calls, s.added, args)
    ensures pending == [] ==> |MemoryList.Since(from.calls, s.calls)| == |s.added|
  {
    FullIf(MemoryList.Since(from.calls, s.calls), s.added, args);
  }

  /** Removals only grow from round to round. */
  lemma {:induction false} NoneRemovedBefore(fires: seq<Args>, marks: seq<MemoryList.Mark>, r: nat)
    requires MemoryList.Past(fires, marks) && r < |marks| && marks[|marks|-1].removed == {}
    ensures marks[r].removed == {}
    decreases |marks| - r
  {
    if r < |marks| - 1 {
      assert MemoryList.Over(marks, fires, r);
      NoneRemovedBefore(fires, marks, r + 1);
    }
  }

  // ---------------------------------------------------------------- where a round begins

  /** The event of the Deferred that makes event `b` of its progress list. */
  function Position(evs: seq<DEvent>, b: nat): (j: nat)
    requires b < |ProgressEvents(evs)|
    ensures j < |evs|
  {
    if b < |ProgressEvents(evs[..|evs|-1])| then Position(evs[..|evs|-1], b) else |evs| - 1
  }

  lemma {:induction false} PositionIs(evs: seq<DEvent>, b: nat)
    requires b < |ProgressEvents(evs)|
    ensures ProgressEvents(evs[..Position(evs, b)]) == ProgressEvents(evs)[..b]
    decreases |evs|
  {
    hide DRun, ProgressStep;
    var before := evs[..|evs|-1];
    if b < |ProgressEvents(before)| {
      PositionIs(before, b);
      assert before[..Position(before, b)] == evs[..Position(evs, b)];
    } else {
      assert ProgressEvents(evs)[..b] == ProgressEvents(before);
    }
  }

  lemma {:induction false} PositionsGrow(evs: seq<DEvent>, a: nat, b: nat)
    requires a <= b < |ProgressEvents(evs)|
    ensures Position(evs, a) <= Position(evs, b)
    decreases |evs|
  {
    if b < |ProgressEvents(evs[..|evs|-1])| {
      PositionsGrow(evs[..|evs|-1], a, b);
    }
  }

  // ---------------------------------------------------------------- the promises

  /** The progress list after the first `n` events of a run. */
  function Progress(evs: seq<DEvent>, n: nat): State
    requires n <= |evs|
  {
    DRun(evs[..n]).lists[ProgressList]
  }

  /** The events from number `begin` to before number `end` are one round. */
  ghost predicate RoundIs(evs: seq<DEvent>, begin: nat, end: nat, args: Args, over: bool)
    requires begin <= |evs| && end <= |evs|
  {
    var from, to := Progress(evs, begin), Progress(evs, end);
    && InFull(from.calls, to.calls, to.added, args)
    && to.added == Users(Attached.AttachedTo(evs[..end], ProgressList))
    && (over ==> |MemoryList.Since(from.calls, to.calls)| == |to.added|)
  }

  /** Where round `r` ends: where the next one begins, or now. */
  function EndOf(evs: seq<DEvent>, begins: seq<nat>, r: nat): nat {
    if r + 1 < |begins| then begins[r + 1] else |evs|
  }

  /** Progress callbacks run in rounds, one for each notify made before the first resolve or
      reject, in the order of the notifies; `begins` numbers the events that begin them. A round
      calls the functions attached to progress from the first one on, in order, with its notify's
      arguments; a round that another one follows has called all that were attached by then, and so
      has the last one while no progress callback runs. While nothing has settled the notifies
      without a round are waiting, and with no progress callback running none is. */
  lemma {:induction false} NotifiesInRounds(evs: seq<DEvent>) returns (begins: seq<nat>)
    ensures var d, notified, p := DRun(evs), Notifies(evs), DRun(evs).lists[ProgressList];
      && |begins| <= |notified|
      && (forall r :: 0 <= r < |begins| ==> begins[r] < |evs|)
      && (forall q, r :: 0 <= q < r < |begins| ==> begins[q] <= begins[r])
      && (if begins == [] then p.calls == [] else Progress(evs, begins[0]).calls == [])
      && (forall r :: 0 <= r < |begins| ==>
            && EndOf(evs, begins, r) <= |evs|
            && RoundIs(evs, begins[r], EndOf(evs, begins, r), notified[r],
                       r + 1 < |begins| || ProgressList !in d.frames))
      && (DeferredRuns.FirstSettle(evs).Nobody? ==>
            && p.stack == Some(notified[|begins|..])
            && (ProgressList !in d.frames ==> |begins| == |notified|))
  {
    hide RoundIs, Run, DRun, ProgressEvents, MemoryList.Tied, MemoryList.Inv, Notifies, Untouched;
    EmptiesNothing(evs);
    NothingRemoved(evs);
    ProgressIsRun(evs);
    AcceptedAreNotifies(evs);
    var where, marks := MemoryList.RunKeeps(MEMORY, ProgressEvents(evs));
    begins := BeginsAt(evs, where, marks);
    FiringIsRunning(evs);
    InvSays(DRun(evs).lists[ProgressList], Notifies(evs), marks);
    forall r | 0 <= r < |begins|
      ensures EndOf(evs, begins, r) <= |evs|
      ensures RoundIs(evs, begins[r], EndOf(evs, begins, r), Notifies(evs)[r],
                      r + 1 < |begins| || ProgressList !in DRun(evs).frames)
    {
      if r + 1 < |begins| {
        EarlierRound(evs, marks, begins, r);
      } else {
        LastRound(evs, marks, begins, r);
      }
    }
  }

  lemma FiringIsRunning(evs: seq<DEvent>)
    ensures ProgressList in DRun(evs).frames <==> DRun(evs).lists[ProgressList].firing
    ensures DeferredRuns.FirstSettle(evs).Nobody? ==> Open(DRun(evs).lists[ProgressList])
  {
    DeferredRuns.RunKeeps(evs);
  }

  /** The moments rounds began, in the numbering of the Deferred's events. */
  ghost predicate MarkedAt(evs: seq<DEvent>, marks: seq<MemoryList.Mark>, begins: seq<nat>) {
    && |begins| == |marks|
    && (forall r :: 0 <= r < |begins| ==> begins[r] < |evs|)
    && (forall q, r :: 0 <= q < r < |begins| ==> begins[q] <= begins[r])
    && (forall r :: 0 <= r < |begins| ==> marks[r] == MemoryList.Here(Progress(evs, begins[r])))
  }

  lemma BeginsAt(evs: seq<DEvent>, where: seq<nat>, marks: seq<MemoryList.Mark>) returns (begins: seq<nat>)
    requires MemoryList.Tied(MEMORY, ProgressEvents(evs), where, marks)
    ensures MarkedAt(evs, marks, begins)
  {
    hide DRun, Run, ProgressEvents;
    assert forall r :: 0 <= r < |where| ==> where[r] < |ProgressEvents(evs)|;
    begins := seq(|where|, r requires 0 <= r < |where| => Position(evs, where[r]));
    forall q, r | 0 <= q < r < |begins| ensures begins[q] <= begins[r] {
      PositionsGrow(evs, where[q], where[r]);
    }
    forall r | 0 <= r < |begins| ensures begins[r] < |evs| && marks[r] == MemoryList.Here(Progress(evs, begins[r])) {
      PositionIs(evs, where[r]);
      ProgressIsRun(evs[..begins[r]]);
    }
  }

  lemma InvSays(p: State, fires: seq<Args>, marks: seq<MemoryList.Mark>)
    requires MemoryList.Inv(p, fires, marks)
    ensures |marks| <= |fires| && if marks == [] then p.calls == [] else marks[0].calls == []
    ensures Open(p) ==> p.stack == Some(fires[|marks|..]) && (!p.firing ==> |marks| == |fires|)
  {
    hide MemoryList.Whole, MemoryList.Current, MemoryList.Over, Valid;
  }

  lemma EarlierRound(evs: seq<DEvent>, marks: seq<MemoryList.Mark>, begins: seq<nat>, r: nat)
    requires MarkedAt(evs, marks, begins) && r + 1 < |begins|
    requires MemoryList.Inv(DRun(evs).lists[ProgressList], Notifies(evs), marks)
    requires Untouched(DRun(evs).lists[ProgressList])
    ensures RoundIs(evs, begins[r], begins[r + 1], Notifies(evs)[r], true)
  {
    var notified := Notifies(evs);
    LastRemovesNothing(DRun(evs).lists[ProgressList], notified, marks);
    assert MemoryList.Past(notified, marks);
    hide MemoryList.Inv, MemoryList.IsRound, MemoryList.CallsAll, InFull, Valid, DRun, Notifies, Untouched, Users;
    assert MemoryList.Over(marks, notified, r);
    NoneRemovedBefore(notified, marks, r + 1);
    PastIsFull(marks[r], marks[r + 1], notified[r]);
    AllAttached(evs, begins[r + 1]);
  }

  lemma LastRound(evs: seq<DEvent>, marks: seq<MemoryList.Mark>, begins: seq<nat>, r: nat)
    requires MarkedAt(evs, marks, begins) && r == |begins| - 1
    requires MemoryList.Inv(DRun(evs).lists[ProgressList], Notifies(evs), marks)
    requires Untouched(DRun(evs).lists[ProgressList])
    ensures RoundIs(evs, begins[r], |evs|, Notifies(evs)[r], !DRun(evs).lists[ProgressList].firing)
  {
    hide MemoryList.Inv, MemoryList.Current, InFull, Valid, DRun, Notifies, Untouched, Users;
    var p, notified := DRun(evs).lists[ProgressList], Notifies(evs);
    LastRemovesNothing(p, notified, marks);
    var rest := LastIsCurrent(p, notified, marks);
    CurrentIsFull(p, marks[r], notified[r], rest);
    assert evs[..|evs|] == evs;
    AllAttached(evs, |evs|);
  }

  lemma LastIsCurrent(p: State, fires: seq<Args>, marks: seq<MemoryList.Mark>) returns (rest: seq<Entry>)
    requires MemoryList.Inv(p, fires, marks) && marks != []
    ensures |marks| <= |fires| && (!p.firing ==> rest == [])
    ensures MemoryList.Current(p, marks[|marks|-1], fires[|marks|-1], rest)
  {
    rest := MemoryList.Rest(p);
  }

  lemma AllAttached(evs: seq<DEvent>, n: nat)
    requires n <= |evs| && DRun(evs).lists[ProgressList].list.Some?
    ensures Progress(evs, n).added == Users(Attached.AttachedTo(evs[..n], ProgressList))
  {
    hide DRun;
    Attached.NeverDisabled(evs, ProgressList, n);
    Attached.AddedAreAttached(evs[..n], ProgressList);
  }

  lemma LastRemovesNothing(p: State, fires: seq<Args>, marks: seq<MemoryList.Mark>)
    requires MemoryList.Inv(p, fires, marks) && Untouched(p) && marks != []
    ensures p.removed == {} && marks[|marks|-1].removed == {} && p.list.Some?
  {
  }

  lemma EventsOneMore(evs: seq<DEvent>, e: DEvent)
    ensures ProgressEvents(evs + [e]) == ProgressEvents(evs) + Just(ProgressStep(DRun(evs), e))
  {
    hide DRun, ProgressStep, Just;
    assert (evs + [e])[..|evs|] == evs;
  }

  lemma {:induction false} EventsGrow(evs: seq<DEvent>, more: seq<DEvent>) returns (tail: seq<Event>)
    ensures ProgressEvents(evs + more) == ProgressEvents(evs) + tail
    decreases |more|
  {
    hide DRun, ProgressStep, Just, ProgressEvents;
    if more == [] {
      tail := [];
      assert evs + more == evs && ProgressEvents(evs) + [] == ProgressEvents(evs);
    } else {
      var before, e := more[..|more|-1], more[|more|-1];
      assert evs + more == (evs + before) + [e];
      tail := EventsGrow(evs, before);
      EventsOneMore(evs + before, e);
      var last := Just(ProgressStep(DRun(evs + before), e));
      Assoc(ProgressEvents(evs), tail, last);
      tail := tail + last;
    }
  }

  /** After the first resolve or reject no notify counts any more. */
  lemma {:induction false} NotifiesStay(evs: seq<DEvent>, more: seq<DEvent>)
    requires DeferredRuns.FirstSettle(evs).Somebody?
    ensures DeferredRuns.FirstSettle(evs + more).Somebody? && Notifies(evs + more) == Notifies(evs)
    decreases |more|
  {
    if more == [] {
      assert evs + more == evs;
    } else {
      var before := evs + more[..|more|-1];
      assert (evs + more)[..|evs + more|-1] == before;
      NotifiesStay(evs, more[..|more|-1]);
    }
  }

  lemma {:induction false} SettledIsLocked(evs: seq<DEvent>)
    requires DeferredRuns.FirstSettle(evs).Somebody? && !Busy(DRun(evs))
    ensures DRun(evs).lists[ProgressList].stack.None?
  {
    DeferredRuns.RunKeeps(evs);
    DeferredRuns.BusyMeansSettling(DRun(evs), DeferredRuns.FirstSettle(evs));
  }

  /** A progress list that never began a round before settling never begins one. */
  lemma {:induction false} NeverNotified(evs: seq<DEvent>, more: seq<DEvent>)
    requires DeferredRuns.FirstSettle(evs).Somebody? && !DRun(evs).lists[ProgressList].fired
    ensures DRun(evs + more).lists[ProgressList].calls == []
  {
    hide DRun, Run, MemoryList.Whole, MemoryList.Current, MemoryList.Past, Notifies, ProgressEvents;
    EmptiesNothing(evs);
    ProgressIsRun(evs);
    AcceptedAreNotifies(evs);
    var _, marks := MemoryList.RunKeeps(MEMORY, ProgressEvents(evs));
    NotifiesStay(evs, more);
    assert Notifies(evs) == [];
    var later := NotifiesInRounds(evs + more);
    assert later == [];
  }

  /** Settling drops the notifies that were waiting: from then on, whatever happens, no further
      round begins, and every further progress call has the arguments of the last one. */
  lemma {:induction false} SettlingDropsWaiting(evs: seq<DEvent>, more: seq<DEvent>)
    requires DeferredRuns.FirstSettle(evs).Somebody? && !Busy(DRun(evs))
    ensures var p, q := DRun(evs).lists[ProgressList], DRun(evs + more).lists[ProgressList];
      && p.stack.None?
      && LockedList.OnlyMore(p, q, LockedList.LastArgs(p))
      && (!p.fired ==> q.calls == [])
  {
    hide DRun, Run, Busy, LockedList.OnlyMore, DeferredRuns.FirstSettle, ProgressEvents;
    SettledIsLocked(evs);
    ProgressIsRun(evs);
    ProgressIsRun(evs + more);
    EmptiesNothing(evs);
    var tail := EventsGrow(evs, more);
    var p, q := DRun(evs).lists[ProgressList], DRun(evs + more).lists[ProgressList];
    if p.fired {
      LockedList.LockDropsWaiting(MEMORY, ProgressEvents(evs), tail);
    } else {
      NeverNotified(evs, more);
      NeverNotified(evs, []);
      assert evs + [] == evs;
      NothingMore(p, q, LockedList.LastArgs(p));
    }
  }

  lemma NothingMore(p: State, q: State, args: Args)
    requires p.calls == [] && q.calls == []
    ensures LockedList.OnlyMore(p, q, args)
  {
  }
}
