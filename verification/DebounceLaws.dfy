/** When a debounced call invokes, and what cancel and flush do, told from the events of a run. */
module DebounceLaws {
  import opened Wrappers
  import opened Debounce

  /** The time that has passed. */
  function Clock(evs: seq<Event>): real {
    if evs == [] then 1.0
    else
      var e := evs[|evs|-1];
      Clock(evs[..|evs|-1]) + if e.Elapse? && e.time >= 0.0 then e.time else 0.0
  }

  /** When the last call was, unless a cancel came after it. */
  function LastCallAt(evs: seq<Event>): Option<real> {
    if evs == [] then None
    else
      var before, e := evs[..|evs|-1], evs[|evs|-1];
      if e.Call? then Some(Clock(before)) else if e.Cancel? then None else LastCallAt(before)
  }

  lemma StepTells(s: State, e: Event, clock: real, last: Option<real>)
    requires s.now == clock && s.lastCallTime == (if last.Some? then last.value else 0.0)
    ensures var r := Step(s, e);
      && r.now == clock + (if e.Elapse? && e.time >= 0.0 then e.time else 0.0)
      && r.lastCallTime == (if e.Call? then clock else if e.Cancel? || last.None? then 0.0 else last.value)
  {
  }

  /** The machine's clock and the time it keeps are those of the events. */
  lemma {:induction false} TimesAreTold(opts: Options, evs: seq<Event>)
    ensures var s, last := Run(opts, evs), LastCallAt(evs);
      s.now == Clock(evs) && s.lastCallTime == if last.Some? then last.value else 0.0
    decreases |evs|
  {
    hide Step;
    if evs != [] {
      var before := evs[..|evs|-1];
      TimesAreTold(opts, before);
      StepTells(Run(opts, before), evs[|evs|-1], Clock(before), LastCallAt(before));
    }
  }

  /** A single timer is pending, and may fire from the moment `due` on. */
  ghost predicate OneTimer(live: map<nat, real>, due: real) {
    exists id: nat :: id in live && live == map[id := due]
  }

  /** A timer is pending, and the wait since the last call is over: the timer is late. */
  ghost predicate Overdue(opts: Options, evs: seq<Event>) {
    && Run(opts, evs).live != map[]
    && LastCallAt(evs).Some? && Clock(evs) >= LastCallAt(evs).value + opts.wait
  }

  /** Exactly when a call invokes: at once with its own arguments if the pending timer is late, or if
      none is pending and the leading edge is on; in both cases, and whenever none was pending, a
      single timer is set for the wait from now. Otherwise the arguments wait and the timer stays. */
  lemma CallInvokesExactly(opts: Options, evs: seq<Event>, args: Args)
    requires FlushesLate(opts, evs)
    ensures var s, r := Run(opts, evs), Step(Run(opts, evs), Call(args));
      var invokes := Overdue(opts, evs) || (s.live == map[] && opts.leading);
      && (invokes ==> r.log == s.log + [Invocation(args, Clock(evs))] && r.lastArgs.None?)
      && (!invokes ==> r.log == s.log && r.lastArgs == Some(args))
      && (invokes || s.live == map[] ==>
            OneTimer(r.live, Clock(evs) + if opts.wait < 0.0 then 0.0 else opts.wait))
      && (!invokes && s.live != map[] ==> r.live == s.live)
  {
    hide Run, Clock, LastCallAt, FlushesLate, Step, OneTimer, Debounce.Inv, Overdue;
    RunKeeps(opts, evs);
    OverdueIs(opts, evs);
    CallStep(Run(opts, evs), args);
  }

  lemma OverdueIs(opts: Options, evs: seq<Event>)
    requires Debounce.Inv(Run(opts, evs))
    ensures var s := Run(opts, evs);
      && s.now == Clock(evs) && (s.timerId.Some? <==> s.live != map[])
      && (Overdue(opts, evs) <==> s.timerId.Some? && s.now >= s.lastCallTime + opts.wait)
  {
    hide Run, Clock, LastCallAt, Debounce.Inv;
    TimesAreTold(opts, evs);
    TimerIsLive(Run(opts, evs));
  }

  lemma TimerIsLive(s: State)
    requires Debounce.Inv(s)
    ensures s.timerId.Some? <==> s.live != map[]
    ensures s.timerId.Some? ==> s.lastCallTime > 0.0
  {
    assert s.timerId.Some? ==> s.timerId.value in s.live;
  }

  lemma CallStep(s: State, args: Args)
    requires Debounce.Inv(s)
    ensures var r := Step(s, Call(args));
      var late := s.timerId.Some? && s.now >= s.lastCallTime + s.opts.wait;
      var invokes := late || (s.timerId.None? && s.opts.leading);
      && (invokes ==> r.log == s.log + [Invocation(args, s.now)] && r.lastArgs.None?)
      && (!invokes ==> r.log == s.log && r.lastArgs == Some(args))
      && (late || s.timerId.None? ==>
            OneTimer(r.live, s.now + if s.opts.wait < 0.0 then 0.0 else s.opts.wait))
      && (!late && s.timerId.Some? ==> r.live == s.live)
  {
    var r := Step(s, Call(args));
    if s.timerId.Some? {
      assert s.live - {s.timerId.value} == map[];
    }
    if r.live != s.live {
      assert s.nextId in r.live && r.live == map[s.nextId := s.now + if s.opts.wait < 0.0 then 0.0 else s.opts.wait];
    }
  }

  // ---------------------------------------------------------------- cancel

  predicate CalledWith(evs: seq<Event>, args: Args) {
    Call(args) in evs
  }

  /** What is pending, and what was invoked since the log was `log`, are arguments of calls. */
  ghost predicate OnlyCalled(s: State, log: seq<Invocation>, evs: seq<Event>) {
    && log <= s.log
    && (s.lastArgs.Some? ==> CalledWith(evs, s.lastArgs.value))
    && forall k :: |log| <= k < |s.log| ==> CalledWith(evs, s.log[k].args)
  }

  lemma StepOnlyCalled(s: State, log: seq<Invocation>, evs: seq<Event>, e: Event)
    requires OnlyCalled(s, log, evs)
    ensures OnlyCalled(Step(s, e), log, evs + [e])
  {
    assert forall a :: CalledWith(evs, a) ==> CalledWith(evs + [e], a);
    assert e.Call? ==> CalledWith(evs + [e], e.args);
  }

  /** A cancelled call is never delivered: after a cancel no timer is pending, nothing is invoked by
      it, and however the run continues only arguments of later calls are. */
  lemma {:induction false} CancelledIsNeverDelivered(opts: Options, evs: seq<Event>, more: seq<Event>)
    requires FlushesLate(opts, evs)
    ensures var s, m := Run(opts, evs), Run(opts, evs + [Cancel]);
      && m.live == map[] && m.log == s.log
      && OnlyCalled(Run(opts, (evs + [Cancel]) + more), s.log, more)
    decreases |more|
  {
    var start := evs + [Cancel];
    RunOneMore(opts, evs, Cancel);
    RunKeeps(opts, evs);
    NothingAfterCancel(Run(opts, evs));
    if more == [] {
      assert start + more == start;
    } else {
      hide Step, Run, Debounce.Inv, OnlyCalled, FlushesLate;
      var before, e := more[..|more|-1], more[|more|-1];
      assert start + more == (start + before) + [e] && more == before + [e];
      CancelledIsNeverDelivered(opts, evs, before);
      StepOnlyCalled(Run(opts, start + before), Run(opts, evs).log, before, e);
      RunOneMore(opts, start + before, e);
    }
  }

  lemma NothingAfterCancel(s: State)
    requires Debounce.Inv(s)
    ensures var m := Step(s, Cancel);
      m.live == map[] && m.log == s.log && OnlyCalled(m, s.log, [])
  {
    if s.timerId.Some? {
      assert s.live - {s.timerId.value} == map[];
    }
  }

  // ---------------------------------------------------------------- flush

  /** A flush with a timer pending invokes with what is pending, if the trailing edge is on, and
      drops it otherwise; it leaves no timer. Without one it does nothing. */
  lemma FlushDelivers(opts: Options, evs: seq<Event>)
    requires FlushesLate(opts, evs)
    ensures var s, r := Run(opts, evs), Step(Run(opts, evs), Flush);
      if s.live == map[] then r == s
      else
        && r.live == map[] && r.lastArgs.None?
        && r.log ==
            s.log + (if opts.trailing && s.lastArgs.Some? then [Invocation(s.lastArgs.value, Clock(evs))] else [])
  {
    RunKeeps(opts, evs);
    TimesAreTold(opts, evs);
    var s := Run(opts, evs);
    if s.timerId.Some? {
      assert s.timerId.value in s.live && s.live - {s.timerId.value} == map[];
    }
  }

  /** What is pending are the last call's arguments, in every run. */
  lemma {:induction false} PendingIsLastCall(opts: Options, evs: seq<Event>)
    ensures var s := Run(opts, evs);
      s.lastArgs.Some? ==> s.lastArgs == LastCall(evs)
    decreases |evs|
  {
    hide Step;
    if evs != [] {
      var before := evs[..|evs|-1];
      PendingIsLastCall(opts, before);
      StepPending(Run(opts, before), evs[|evs|-1], LastCall(before));
    }
  }

  lemma StepPending(s: State, e: Event, last: Option<Args>)
    requires s.lastArgs.Some? ==> s.lastArgs == last
    ensures Step(s, e).lastArgs.Some? ==> Step(s, e).lastArgs == LastAfter(last, e)
  {
  }
}
