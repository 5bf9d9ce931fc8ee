/** The Deferred as the source builds it: three list objects and the state variable they share
    through closures. Every method takes exactly one step of the machine in Deferred.dfy. */
module DeferredObject {
  import opened Callbacks
  import opened CallbackLists
  import opened Deferred

  class DeferredObject {
    var state: Settled
    const done: CallbackList
    const fail: CallbackList
    const progress: CallbackList
    // The lists whose callback is running, innermost last: the JavaScript call stack.
    var frames: seq<ListId>

    function List(l: ListId): CallbackList {
      match l case DoneList => done case FailList => fail case ProgressList => progress
    }

    ghost function Value(): DState
      reads this, done, fail, progress
    {
      DState(state, map[DoneList := done.Value(), FailList := fail.Value(), ProgressList := progress.Value()], frames)
    }

    ghost predicate Separate()
    {
      done != fail && done != progress && fail != progress
    }

    constructor ()
      ensures Separate() && fresh(done) && fresh(fail) && fresh(progress)
      ensures Value() == InitD()
    {
      hide Step, Valid, AddAll, Init, CallbackList.Value, Internals;
      done := new CallbackList(ONCE_MEMORY);
      fail := new CallbackList(ONCE_MEMORY);
      progress := new CallbackList(MEMORY);
      state, frames := Settled.Pending, [];
      new;
      InitValid(ONCE_MEMORY);
      done.Add(Internals(DoneList));
      fail.Add(Internals(FailList));
      AddIs(Init(ONCE_MEMORY), Internals(DoneList));
      AddIs(Init(ONCE_MEMORY), Internals(FailList));
    }

    lemma At(l: ListId)
      requires ValidD(Value())
      ensures Value().lists[l] == List(l).Value() && Valid(List(l).Value())
    {
      hide Valid;
      assert l in Value().lists;
    }

    /** Only list `l` moved. */
    twostate lemma Moved(l: ListId)
      requires Separate()
      requires forall k: ListId :: k != l ==> List(k).Value() == old(List(k).Value())
      ensures Value().lists == old(Value()).lists[l := List(l).Value()]
    {
      var was := old(Value()).lists;
      forall k: ListId ensures k in Value().lists && Value().lists[k] == was[l := List(l).Value()][k] {
        assert k == l || List(k).Value() == old(List(k).Value());
      }
    }

    method IsBusy() returns (busy: bool)
      requires Separate() && ValidD(Value())
      ensures busy == Busy(Value())
    {
      hide Valid;
      if frames == [] {
        return false;
      }
      At(frames[|frames|-1]);
      var calls := List(frames[|frames|-1]).calls;
      busy := calls != [] && !calls[|calls|-1].entry.cb.User?;
    }

    /** The innermost callback returns. */
    method Return(result: bool)
      requires Separate() && ValidD(Value()) && frames != []
      modifies this, done, fail, progress
      ensures Value() == Unwind(old(Value()), result)
    {
      hide Step, Valid;
      var l := frames[|frames|-1];
      At(l);
      ReturnIs(List(l).Value(), result);
      if List(l).firing {
        List(l).Return(result);
      }
      if !List(l).firing {
        frames := frames[..|frames|-1];
      }
      Moved(l);
    }

    /** A user callback returns. */
    method Leave(result: bool)
      requires Separate() && ValidD(Value())
      modifies this, done, fail, progress
      ensures Value() == DStep(old(Value()), DEvent.Leave(result))
    {
      hide Step, Valid, Unwind;
      var busy := IsBusy();
      if !busy && frames != [] {
        Return(result);
      }
    }

    /** What the closures registered by the constructor do. */
    method RunClosure(cb: Callback)
      requires Separate() && ValidD(Value())
      modifies this, done, fail, progress
      ensures Value() == Effect(old(Value()), cb) && frames == old(frames)
    {
      hide Step, Valid;
      match cb
      case User(_) =>
      case SetState(to) => state := to;
      case DisableList(l) =>
        At(l);
        DisableIs(List(l).Value());
        List(l).Disable();
        Moved(l);
      case LockList(l) =>
        At(l);
        DisableIs(List(l).Value());
        List(l).Lock();
        Moved(l);
    }

    /** The Deferred's own closure, when that is the running callback, runs and returns. */
    method Tick()
      requires Separate() && ValidD(Value())
      modifies this, done, fail, progress
      ensures Value() == DStep(old(Value()), DEvent.Tick)
    {
      hide Step, Valid, Unwind, Effect;
      var busy := IsBusy();
      if busy {
        At(frames[|frames|-1]);
        var calls := List(frames[|frames|-1]).calls;
        RunClosure(calls[|calls|-1].entry.cb);
        Return(true);
      }
    }

    /** `done`, `fail` and `progress` */
    method Attach(l: ListId, ids: seq<nat>)
      requires Separate() && ValidD(Value())
      modifies this, done, fail, progress
      ensures Value() == DStep(old(Value()), DEvent.Attach(l, ids))
    {
      hide Step, Valid;
      At(l);
      var busy := IsBusy();
      if !busy {
        var was := List(l).firing;
        AddIs(List(l).Value(), Users(ids));
        List(l).Add(Users(ids));
        if List(l).firing && !was {
          frames := frames + [l];
        }
        Moved(l);
      }
    }

    /** `resolve`, `reject` and `notify` */
    method Trigger(l: ListId, args: Args)
      requires Separate() && ValidD(Value())
      modifies this, done, fail, progress
      ensures Value() == DStep(old(Value()), DEvent.Trigger(l, args))
    {
      hide Step, Valid;
      At(l);
      var busy := IsBusy();
      if !busy {
        var was := List(l).firing;
        FireIs(List(l).Value(), args);
        List(l).Fire(args);
        if List(l).firing && !was {
          frames := frames + [l];
        }
        Moved(l);
      }
    }

    method Observe() returns (state: Settled, done: seq<Call>, failed: seq<Call>, notified: seq<Call>)
      ensures state == Value().state && done == Value().lists[DoneList].calls
      ensures failed == Value().lists[FailList].calls && notified == Value().lists[ProgressList].calls
    {
      state, done, failed, notified := this.state, this.done.calls, fail.calls, progress.calls;
    }

    /** One event of a run */
    method Do(e: DEvent)
      requires Separate() && ValidD(Value())
      modifies this, done, fail, progress
      ensures Value() == DStep(old(Value()), e)
    {
      hide DStep, ValidD;
      match e
      case Attach(l, ids) => Attach(l, ids);
      case Trigger(l, args) => Trigger(l, args);
      case Leave(result) => Leave(result);
      case Tick => Tick();
    }
  }

  /** A whole run of the real object makes the calls and reaches the state of the machine's run. */
  method Drive(evs: seq<DEvent>) returns (state: Settled, done: seq<Call>, failed: seq<Call>, notified: seq<Call>)
    ensures var d := DRun(evs);
      && state == d.state && done == d.lists[DoneList].calls && failed == d.lists[FailList].calls
      && notified == d.lists[ProgressList].calls
  {
    hide DStep, ValidD, InitD, DeferredObject.Value;
    var d := new DeferredObject();
    for k := 0 to |evs|
      invariant d.Separate() && d.Value() == DRun(evs[..k])
      invariant fresh(d) && fresh(d.done) && fresh(d.fail) && fresh(d.progress)
    {
      assert evs[..k + 1][..k] == evs[..k];
      d.Do(evs[k]);
    }
    assert evs[..|evs|] == evs;
    state, done, failed, notified := d.Observe();
  }

  lemma InitValid(o: Options)
    ensures Valid(Init(o))
  {
  }

  lemma AddIs(s: State, cbs: seq<Callback>)
    requires Valid(s)
    ensures AddAll(s, cbs) == Step(s, Add(cbs))
  {
  }

  lemma FireIs(s: State, args: Args)
    requires Valid(s)
    ensures FireWith(s, args) == Step(s, Fire(args))
  {
  }

  lemma ReturnIs(s: State, result: bool)
    requires Valid(s)
    ensures Step(s, Event.Return(result)) == if s.firing then ReturnFrom(s, result) else s
  {
  }

  lemma DisableIs(s: State)
    requires Valid(s)
    ensures Step(s, Event.Disable) == DisableNow(s) && Step(s, Event.Lock) == LockNow(s)
  {
  }
}
