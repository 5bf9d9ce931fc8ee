/** A Deferred settles at most once, over every run. */
module DeferredRuns {
  import opened Callbacks
  import opened Deferred
  import opened SettlingList
  import opened Attached

  /** The first resolve or reject of a run: which list, and with what arguments. */
  datatype First = Nobody | Somebody(winner: ListId, args: Args)

  function Later(first: First, e: DEvent): First {
    if first.Nobody? && e.Trigger? && e.target != ProgressList then Somebody(e.target, e.args) else first
  }

  function FirstSettle(evs: seq<DEvent>): First {
    if evs == [] then Nobody else Later(FirstSettle(evs[..|evs|-1]), evs[|evs|-1])
  }

  /** The running callbacks are those of the firing lists, one frame each. */
  ghost predicate FramesOk(d: DState)
    requires ValidD(d)
  {
    && (forall i, j :: 0 <= i < j < |d.frames| ==> d.frames[i] != d.frames[j])
    && forall l: ListId :: l in d.frames <==> d.lists[l].firing
  }

  ghost predicate Undecided(d: DState)
    requires ValidD(d)
  {
    && d.state == Settled.Pending && Open(d.lists[ProgressList])
    && Waiting(d.lists[DoneList], DoneList) && Waiting(d.lists[FailList], FailList)
  }

  /** The winner is running one of the three closures: it is the innermost firing list, and
      what the earlier closures did is done. */
  ghost predicate Settling(d: DState, l: ListId, args: Args)
    requires ValidD(d)
  {
    var s, step := d.lists[l], |d.lists[l].calls|;
    && Fired(s, l, args) && s.firing && 1 <= step <= 3
    && d.frames != [] && d.frames[|d.frames|-1] == l
    && d.state == (if step == 1 then Settled.Pending else Outcome(l))
    && (if step <= 2 then Waiting(d.lists[Other(l)], Other(l)) else Dead(d.lists[Other(l)]))
    && Open(d.lists[ProgressList])
  }

  ghost predicate Decided(d: DState, l: ListId, args: Args)
    requires ValidD(d)
  {
    var s := d.lists[l];
    && Fired(s, l, args) && (s.firing ==> |s.calls| > 3)
    && d.state == Outcome(l) && Dead(d.lists[Other(l)]) && Locked(d.lists[ProgressList])
  }

  ghost predicate Inv(d: DState, first: First)
    requires ValidD(d)
  {
    && FramesOk(d) && ProgressOk(d.lists[ProgressList])
    && match first
       case Nobody => Undecided(d)
       case Somebody(l, args) => l != ProgressList && (Settling(d, l, args) || Decided(d, l, args))
  }

  // ---------------------------------------------------------------- frames

  lemma InvokeFrames(d: DState, l: ListId, e: Event)
    requires ValidD(d) && FramesOk(d)
    requires d.lists[l].firing ==> Step(d.lists[l], e).firing
    ensures FramesOk(Invoke(d, l, e))
  {
    hide Step, Valid;
    var r := Invoke(d, l, e);
    forall k: ListId ensures k in r.frames <==> r.lists[k].firing {
      assert k in d.frames <==> d.lists[k].firing;
    }
  }

  lemma InFront(frames: seq<ListId>, k: ListId)
    requires frames != [] && forall i, j :: 0 <= i < j < |frames| ==> frames[i] != frames[j]
    ensures k in frames[..|frames|-1] <==> k in frames && k != frames[|frames|-1]
  {
    assert frames == frames[..|frames|-1] + [frames[|frames|-1]];
  }

  lemma UnwindFrames(d: DState, result: bool)
    requires ValidD(d) && FramesOk(d) && d.frames != []
    ensures FramesOk(Unwind(d, result))
  {
    hide Step, Valid;
    var r, l := Unwind(d, result), d.frames[|d.frames|-1];
    forall k: ListId ensures k in r.frames <==> r.lists[k].firing {
      assert k in d.frames <==> d.lists[k].firing;
      assert k != l ==> r.lists[k] == d.lists[k];
      InFront(d.frames, k);
    }
  }

  /** The Deferred's own closures never stop or start a firing. */
  lemma EffectFrames(d: DState, cb: Callback)
    requires ValidD(d) && FramesOk(d)
    ensures FramesOk(Effect(d, cb))
  {
    hide Valid;
    var r := Effect(d, cb);
    forall k: ListId ensures k in r.frames <==> r.lists[k].firing {
      assert k in d.frames <==> d.lists[k].firing;
    }
  }

  // ---------------------------------------------------------------- who is running

  /** Own closures run exactly while settling. */
  lemma BusyMeansSettling(d: DState, first: First)
    requires ValidD(d) && Inv(d, first)
    ensures Busy(d) <==> first.Somebody? && Settling(d, first.winner, first.args)
  {
    if d.frames != [] {
      var l := d.frames[|d.frames|-1];
      assert l in d.frames && d.lists[l].firing;
      if l == ProgressList {
        CurrentProgress(d.lists[ProgressList]);
      } else if first.Somebody? && l == first.winner {
        CurrentOf(d.lists[l], l, first.args);
      }
    }
  }

  // ---------------------------------------------------------------- the steps keep it

  lemma AttachKeeps(d: DState, l: ListId, ids: seq<nat>, first: First)
    requires ValidD(d) && Inv(d, first) && !Busy(d)
    ensures Inv(Invoke(d, l, Add(Users(ids))), first)
  {
    hide Step, Registered, Listed, Called, Closures, AllUser;
    BusyMeansSettling(d, first);
    if l == ProgressList {
      AttachProgress(d.lists[ProgressList], ids);
    } else if first.Nobody? {
      AttachWaiting(d.lists[l], l, ids);
    } else if l == first.winner {
      AttachFired(d.lists[l], l, ids, first.args);
    } else {
      AttachDead(d.lists[l], ids);
      Unmoved(d, l);
    }
    InvokeFrames(d, l, Add(Users(ids)));
  }

  lemma TriggerKeeps(d: DState, l: ListId, args: Args, first: First)
    requires ValidD(d) && Inv(d, first) && !Busy(d)
    ensures Inv(Invoke(d, l, Fire(args)), Later(first, Trigger(l, args)))
    ensures first.Somebody? ==> Invoke(d, l, Fire(args)) == d
  {
    hide Step, Registered, Listed, Called, Closures, AllUser;
    BusyMeansSettling(d, first);
    if l == ProgressList {
      FireProgress(d.lists[l], args);
    } else if first.Nobody? {
      FireWaiting(d.lists[l], l, args);
      assert Invoke(d, l, Fire(args)).lists[Other(l)] == d.lists[Other(l)];
    } else {
      FireAgain(d.lists[l], first.winner, first.args, args);
    }
    InvokeFrames(d, l, Fire(args));
    if first.Somebody? {
      Unmoved(d, l);
    }
  }

  lemma Unmoved(d: DState, l: ListId)
    requires l in d.lists
    ensures d.lists[l := d.lists[l]] == d.lists
  {
  }

  lemma LeaveKeeps(d: DState, result: bool, first: First)
    requires ValidD(d) && Inv(d, first) && !Busy(d) && d.frames != []
    ensures Inv(Unwind(d, result), first)
  {
    hide Step, Registered, Listed, Called, Closures, AllUser;
    BusyMeansSettling(d, first);
    UnwindFrames(d, result);
    var l := d.frames[|d.frames|-1];
    assert l in d.frames && d.lists[l].firing;
    if l == ProgressList {
      ReturnProgress(d.lists[ProgressList], result);
    } else {
      ReturnFired(d.lists[l], l, first.args, result);
    }
  }

  /** The three ticks: set the state, disable the other list, lock the progress list. Each is
      followed by the next callback of the winner, `now` being the winner's list then. */
  lemma FirstTick(d: DState, l: ListId, args: Args, now: State)
    requires ValidD(d) && Settling(d, l, args) && l != ProgressList && |d.lists[l].calls| == 1
    requires Fired(now, l, args) && now.firing && |now.calls| == 2
    ensures var r := DState(Outcome(l), d.lists[l := now], d.frames);
      ValidD(r) && Settling(r, l, args)
  {
  }

  lemma SecondTick(d: DState, l: ListId, args: Args, now: State, dead: State)
    requires ValidD(d) && Settling(d, l, args) && l != ProgressList && |d.lists[l].calls| == 2
    requires Fired(now, l, args) && now.firing && |now.calls| == 3 && Dead(dead)
    ensures var r := DState(d.state, d.lists[Other(l) := dead][l := now], d.frames);
      ValidD(r) && Settling(r, l, args)
  {
  }

  lemma ThirdTick(d: DState, l: ListId, args: Args, now: State, locked: State, frames: seq<ListId>)
    requires ValidD(d) && Settling(d, l, args) && l != ProgressList && |d.lists[l].calls| == 3
    requires Fired(now, l, args) && (now.firing ==> |now.calls| == 4) && Valid(locked) && Locked(locked)
    ensures var r := DState(d.state, d.lists[ProgressList := locked][l := now], frames);
      ValidD(r) && Decided(r, l, args)
  {
  }

  lemma TickKeeps(d: DState, first: First)
    requires ValidD(d) && Inv(d, first) && Busy(d)
    ensures Inv(DStep(d, Tick), first)
  {
    hide Step, Valid, Fired, Waiting, Dead, Locked, Open, ProgressOk, FramesOk, Internals;
    BusyMeansSettling(d, first);
    var l, args := first.winner, first.args;
    var s := d.lists[l];
    CurrentOf(s, l, args);
    InternalsAre(l);
    TickFrames(d);
    ReturnFired(s, l, args, true);
    var now := Step(s, Return(true));
    if |s.calls| == 1 {
      FirstTick(d, l, args, now);
    } else if |s.calls| == 2 {
      DisableWaiting(d.lists[Other(l)], Other(l));
      SecondTick(d, l, args, now, Step(d.lists[Other(l)], Disable));
    } else {
      LockProgress(d.lists[ProgressList]);
      ThirdTick(d, l, args, now, Step(d.lists[ProgressList], Lock), DStep(d, Tick).frames);
    }
  }

  lemma InternalsAre(l: ListId)
    ensures |Internals(l)| == 3 && Internals(l)[0] == SetState(Outcome(l))
    ensures Internals(l)[1] == DisableList(Other(l)) && Internals(l)[2] == LockList(ProgressList)
  {
  }

  lemma TickFrames(d: DState)
    requires ValidD(d) && FramesOk(d) && Busy(d)
    ensures FramesOk(DStep(d, Tick))
  {
    hide Step, Effect, Unwind;
    var cb := Current(Innermost(d));
    EffectFrames(d, cb);
    UnwindFrames(Effect(d, cb), true);
  }

  lemma StepKeeps(d: DState, e: DEvent, first: First)
    requires ValidD(d) && Inv(d, first)
    ensures Inv(DStep(d, e), Later(first, e))
  {
    hide Step, Invoke, Unwind, Effect, Inv;
    BusyMeansSettling(d, first);
    match e
    case Attach(l, ids) => if !Busy(d) { AttachKeeps(d, l, ids, first); }
    case Trigger(l, args) => if !Busy(d) { TriggerKeeps(d, l, args, first); }
    case Leave(result) => if !Busy(d) && d.frames != [] { LeaveKeeps(d, result, first); }
    case Tick => if Busy(d) { TickKeeps(d, first); }
  }

  lemma InitWaits(l: ListId)
    ensures Waiting(SettlingInit(l), l)
  {
    SettlingInitIs(l);
    InternalsAre(l);
    hide SettlingInit, Internals;
    assert Internals(l)[..3] == Internals(l);
  }

  lemma InitKeeps()
    ensures Inv(InitD(), Nobody)
  {
    hide SettlingInit, Registered, Listed, Called, Closures;
    InitWaits(DoneList);
    InitWaits(FailList);
  }

  lemma {:induction false} RunKeeps(evs: seq<DEvent>)
    ensures Inv(DRun(evs), FirstSettle(evs))
    decreases |evs|
  {
    hide DStep, Inv;
    if evs == [] {
      InitKeeps();
    } else {
      RunKeeps(evs[..|evs|-1]);
      StepKeeps(DRun(evs[..|evs|-1]), evs[|evs|-1], FirstSettle(evs[..|evs|-1]));
    }
  }

  // ---------------------------------------------------------------- the promises

  /** The first resolve or reject decides, whoever else calls what: when no callback is running
      the state is its outcome, the losing list never ran anything, and the winning list ran the
      Deferred's closures and then every function user code attached to it, before or after, each
      once, in order, with the winner's arguments. */
  lemma {:induction false} FirstDecides(evs: seq<DEvent>)
    ensures var d, first := DRun(evs), FirstSettle(evs);
      && (first.Nobody? ==>
            d.state == Settled.Pending && d.lists[DoneList].calls == [] && d.lists[FailList].calls == [])
      && (first.Somebody? ==>
            var won := d.lists[first.winner];
            && first.winner != ProgressList
            && d.lists[Other(first.winner)].calls == []
            && won.added == Internals(first.winner) + Users(AttachedTo(evs, first.winner))
            && Called(won.calls, won.added, first.args)
            && (d.frames == [] ==>
                  && d.state == (if first.winner.DoneList? then Resolved else Rejected)
                  && |won.calls| == |won.added|))
  {
    RunKeeps(evs);
    var d, first := DRun(evs), FirstSettle(evs);
    if first.Somebody? {
      AddedAreAttached(evs, first.winner);
      assert !(first.winner in d.frames) ==> !d.lists[first.winner].firing;
    }
  }

  /** Once the state is settled, every later resolve, reject or notify leaves everything alone. */
  lemma {:induction false} SettledIgnoresTriggers(evs: seq<DEvent>, l: ListId, args: Args)
    requires DRun(evs).state != Settled.Pending
    ensures DStep(DRun(evs), Trigger(l, args)) == DRun(evs)
  {
    RunKeeps(evs);
    var d := DRun(evs);
    if !Busy(d) {
      TriggerKeeps(d, l, args, FirstSettle(evs));
    }
  }

  /** Only a closure that sets the state changes it. */
  lemma OnlySetState(d: DState, e: DEvent)
    requires ValidD(d)
    ensures DStep(d, e).state == d.state
      || (e.Tick? && Busy(d) && Current(Innermost(d)).SetState?)
  {
  }

  /** That closure is never running when the state is already settled. */
  lemma {:induction false} NoSecondSet(evs: seq<DEvent>)
    requires DRun(evs).state != Settled.Pending && Busy(DRun(evs))
    ensures var d := DRun(evs);
      !Current(Innermost(d)).SetState?
  {
    var d, first := DRun(evs), FirstSettle(evs);
    RunKeeps(evs);
    BusyMeansSettling(d, first);
    CurrentOf(d.lists[first.winner], first.winner, first.args);
  }

  lemma {:induction false} StateStep(evs: seq<DEvent>, e: DEvent)
    requires DRun(evs).state != Settled.Pending
    ensures DStep(DRun(evs), e).state == DRun(evs).state
  {
    hide DRun, Valid;
    OnlySetState(DRun(evs), e);
    if Busy(DRun(evs)) {
      NoSecondSet(evs);
    }
  }

  lemma DRunOneMore(evs: seq<DEvent>, e: DEvent)
    ensures DRun(evs + [e]) == DStep(DRun(evs), e)
  {
    hide DStep, Valid;
    assert (evs + [e])[..|evs|] == evs;
  }

  lemma {:induction false} StateStays(evs: seq<DEvent>, more: seq<DEvent>)
    requires DRun(evs).state != Settled.Pending
    ensures DRun(evs + more).state == DRun(evs).state
    decreases |more|
  {
    hide DStep, DRun, Valid;
    if more == [] {
      assert evs + more == evs;
    } else {
      var before, e := more[..|more|-1], more[|more|-1];
      assert evs + more == (evs + before) + [e];
      StateStays(evs, before);
      StateStep(evs + before, e);
      DRunOneMore(evs + before, e);
    }
  }

  /** It settles at most once: a settled state never changes, and no callback of the opposite
      list ever runs, however the run continues. */
  lemma {:induction false} SettlesOnce(evs: seq<DEvent>, more: seq<DEvent>)
    requires DRun(evs).state != Settled.Pending
    ensures var d, later := DRun(evs), DRun(evs + more);
      && later.state == d.state
      && (d.state == Resolved ==> later.lists[FailList].calls == [])
      && (d.state == Rejected ==> later.lists[DoneList].calls == [])
  {
    hide DRun, FirstSettle, Registered, Listed, Called, Closures;
    StateStays(evs, more);
    RunKeeps(evs);
    RunKeeps(evs + more);
  }
}
