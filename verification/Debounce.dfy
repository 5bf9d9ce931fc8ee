/** `SOE.Utils.debounce` (app/assets/javascripts/R1.js, lines 35-51) as a timed state machine,
    with `maxWait` unset. The machine keeps the browser's timers too, so that a timer left
    behind by a lost id would show. */
module Debounce {
  import opened Wrappers

  type Args = nat
  datatype Options = Options(wait: real, leading: bool, trailing: bool)
  datatype Invocation = Invocation(args: Args, time: real)

  /** The closure variables; `live` maps the id of every pending timer to the earliest moment it
      may fire, and `log` is every call of the debounced function. */
  datatype State = State(
    opts: Options,
    now: real,
    live: map<nat, real>,
    nextId: nat,
    timerId: Option<nat>,
    lastArgs: Option<Args>,
    lastCallTime: real,
    lastInvokeTime: real,
    log: seq<Invocation>)

  /** A timer may fire late, never early; an event that is not enabled changes nothing. */
  datatype Event =
    | Call(args: Args)
    | TimerFires(id: nat)
    | Cancel
    | Flush
    | Elapse(time: real)

  /** The clock is positive; `Elapse` brings any later start. */
  function Init(opts: Options): State {
    State(opts, 1.0, map[], 0, None, None, 0.0, 0.0, [])
  }

  /** The browser raises a negative delay to zero. */
  function Delay(d: real): real {
    if d < 0.0 then 0.0 else d
  }

  function SetTimeout(s: State, d: real): State {
    s.(live := s.live[s.nextId := s.now + Delay(d)], timerId := Some(s.nextId), nextId := s.nextId + 1)
  }

  function ClearTimeout(s: State): State {
    if s.timerId.Some? then s.(live := s.live - {s.timerId.value}) else s
  }

  function InvokeFunc(s: State, time: real): State
    requires s.lastArgs.Some?
  {
    s.(log := s.log + [Invocation(s.lastArgs.value, time)], lastArgs := None, lastInvokeTime := time)
  }

  predicate ShouldInvoke(s: State, time: real) {
    s.lastCallTime == 0.0 || time - s.lastCallTime >= s.opts.wait || time - s.lastCallTime < 0.0
  }

  function LeadingEdge(s: State, time: real): State
    requires s.lastArgs.Some?
  {
    var armed := SetTimeout(s.(lastInvokeTime := time), s.opts.wait);
    if s.opts.leading then InvokeFunc(armed, time) else armed
  }

  function TrailingEdge(s: State, time: real): State {
    var cleared := ClearTimeout(s).(timerId := None);
    if s.opts.trailing && s.lastArgs.Some? then InvokeFunc(cleared, time)
    else cleared.(lastArgs := None)
  }

  function RemainingWait(s: State, time: real): real {
    s.opts.wait - (time - s.lastCallTime)
  }

  function TimerExpired(s: State): State {
    if ShouldInvoke(s, s.now) then TrailingEdge(s, s.now)
    else SetTimeout(s, RemainingWait(s, s.now))
  }

  function Debounced(s: State, args: Args): State {
    var called := s.(lastArgs := Some(args), lastCallTime := s.now);
    if !ShouldInvoke(s, s.now) then called
    else if s.timerId.None? then LeadingEdge(called, s.now)
    else InvokeFunc(SetTimeout(ClearTimeout(called), s.opts.wait), s.now)
  }

  function CancelAll(s: State): State {
    ClearTimeout(s).(lastCallTime := 0.0, lastInvokeTime := 0.0, lastArgs := None, timerId := None)
  }

  function FlushNow(s: State): State {
    if s.timerId.None? then s else TrailingEdge(s, s.now)
  }

  predicate Enabled(s: State, id: nat) {
    id in s.live && s.live[id] <= s.now
  }

  function Step(s: State, e: Event): State {
    match e
    case Call(args) => Debounced(s, args)
    case TimerFires(id) => if Enabled(s, id) then TimerExpired(s.(live := s.live - {id})) else s
    case Cancel => CancelAll(s)
    case Flush => FlushNow(s)
    case Elapse(time) => if time >= 0.0 then s.(now := s.now + time) else s
  }

  function Run(opts: Options, evs: seq<Event>): State {
    if evs == [] then Init(opts) else Step(Run(opts, evs[..|evs|-1]), evs[|evs|-1])
  }

  // ---------------------------------------------------------------- what every run keeps

  /** A flush that the timer could have done itself: none is armed, or the wait is over. */
  predicate FlushIsLate(s: State) {
    s.timerId.None? || s.now - s.lastCallTime >= s.opts.wait
  }

  ghost predicate FlushesLate(opts: Options, evs: seq<Event>) {
    forall k :: 0 <= k < |evs| && evs[k].Flush? ==> FlushIsLate(Run(opts, evs[..k]))
  }

  /** Pending arguments have an armed timer, it is the only timer, and its moment is no later
      than the last call plus the wait; with no timer armed, the wait is over. */
  ghost predicate Inv(s: State) {
    && 0.0 < s.now && 0.0 <= s.lastCallTime <= s.now
    && (s.timerId.None? ==> s.live == map[] && s.lastArgs.None?)
    && (s.timerId.None? ==> s.lastCallTime == 0.0 || s.now - s.lastCallTime >= s.opts.wait)
    && (s.timerId.Some? ==>
          && s.live.Keys == {s.timerId.value} && s.timerId.value < s.nextId
          && 0.0 < s.lastCallTime
          && s.live[s.timerId.value] <= s.lastCallTime + Delay(s.opts.wait))
  }

  lemma StepKeeps(s: State, e: Event)
    requires Inv(s) && (e.Flush? ==> FlushIsLate(s))
    ensures Inv(Step(s, e))
  {
    if s.timerId.Some? {
      var id := s.timerId.value;
      assert s.live - {id} == map[];
    }
  }

  lemma {:induction false} RunKeeps(opts: Options, evs: seq<Event>)
    requires FlushesLate(opts, evs)
    ensures Inv(Run(opts, evs)) && Run(opts, evs).opts == opts
    decreases |evs|
  {
    if evs != [] {
      var before := evs[..|evs|-1];
      FlushesLatePrefix(opts, evs);
      RunKeeps(opts, before);
      StepKeeps(Run(opts, before), evs[|evs|-1]);
    }
  }

  lemma FlushesLatePrefix(opts: Options, evs: seq<Event>)
    requires evs != [] && FlushesLate(opts, evs)
    ensures FlushesLate(opts, evs[..|evs|-1])
    ensures evs[|evs|-1].Flush? ==> FlushIsLate(Run(opts, evs[..|evs|-1]))
  {
    var before := evs[..|evs|-1];
    forall k | 0 <= k < |before| && before[k].Flush? ensures FlushIsLate(Run(opts, before[..k])) {
      assert evs[..k] == before[..k];
    }
  }

  /** Pending arguments always have an armed timer, due no later than the last call plus the
      wait, and there is never a second timer. */
  lemma {:induction false} PendingIsArmed(opts: Options, evs: seq<Event>)
    requires FlushesLate(opts, evs)
    ensures var s := Run(opts, evs);
      && (s.lastArgs.Some? ==> s.timerId.Some?)
      && (s.timerId.Some? ==>
            && s.timerId.value in s.live
            && s.live[s.timerId.value] <= s.lastCallTime + Delay(opts.wait))
      && (forall id :: id in s.live ==> s.timerId == Some(id))
  {
    RunKeeps(opts, evs);
  }

  /** Why `flush` needs its guard: it leaves `lastCallTime` alone, so a call right after an early
      flush stores arguments and arms nothing. The guard is exact. */
  lemma {:induction false} EarlyFlushStrandsNextCall(opts: Options, evs: seq<Event>, args: Args)
    requires FlushesLate(opts, evs)
    ensures var s := Run(opts, evs);
      var r := Step(Step(s, Flush), Call(args));
      (r.lastArgs.Some? ==> r.timerId.Some?) <==> FlushIsLate(s)
  {
    RunKeeps(opts, evs);
    var s := Run(opts, evs);
    if FlushIsLate(s) {
      StepKeeps(s, Flush);
      StepKeeps(Step(s, Flush), Call(args));
    }
  }

  /** A timer that fires either invokes, no earlier than the last call plus the wait, or finds
      nothing to do, or is set again with a positive delay for exactly that moment. */
  lemma {:induction false} TimerOutcome(opts: Options, evs: seq<Event>, id: nat)
    requires FlushesLate(opts, evs) && Enabled(Run(opts, evs), id)
    ensures var s, r := Run(opts, evs), Step(Run(opts, evs), TimerFires(id));
      && (r.log != s.log ==>
            && s.now >= s.lastCallTime + opts.wait
            && r.log == s.log + [Invocation(s.lastArgs.value, s.now)])
      && (r.timerId.Some? <==> s.now < s.lastCallTime + opts.wait)
      && (r.timerId.Some? ==>
            && r.timerId.value in r.live && s.now < r.live[r.timerId.value] == s.lastCallTime + opts.wait
            && r.lastArgs == s.lastArgs)
  {
    RunKeeps(opts, evs);
  }

  // ---------------------------------------------------------------- the last call wins

  function LastAfter(last: Option<Args>, e: Event): Option<Args> {
    match e
    case Call(args) => Some(args)
    case Cancel => None
    case _ => last
  }

  /** The arguments of the last call, unless a cancel came after it. */
  function LastCall(evs: seq<Event>): Option<Args> {
    if evs == [] then None else LastAfter(LastCall(evs[..|evs|-1]), evs[|evs|-1])
  }

  ghost predicate Delivered(s: State, last: Option<Args>) {
    last.Some? && s.opts.trailing ==>
      s.lastArgs == last
      || (s.lastArgs.None? && s.log != [] && Some(s.log[|s.log|-1].args) == last)
  }

  lemma StepDelivers(s: State, e: Event, last: Option<Args>)
    requires Inv(s) && Delivered(s, last)
    ensures Delivered(Step(s, e), LastAfter(last, e))
  {
  }

  lemma {:induction false} RunDelivers(opts: Options, evs: seq<Event>)
    requires FlushesLate(opts, evs)
    ensures Delivered(Run(opts, evs), LastCall(evs))
    decreases |evs|
  {
    hide Step, Inv, Delivered;
    if evs == [] {
      InitDelivers(opts);
    } else {
      var before := evs[..|evs|-1];
      FlushesLatePrefix(opts, evs);
      RunDelivers(opts, before);
      RunKeeps(opts, before);
      StepDelivers(Run(opts, before), evs[|evs|-1], LastCall(before));
    }
  }

  lemma InitDelivers(opts: Options)
    ensures Delivered(Init(opts), None)
  {
  }

  /** Letting the wait pass and the armed timer fire invokes the function with what is pending. */
  lemma WaitDelivers(s: State, late: real)
    requires Inv(s) && s.lastArgs.Some? && s.opts.trailing && late >= 0.0
    ensures var due := Delay(s.lastCallTime + s.opts.wait - s.now) + late;
      var r := Step(Step(s, Elapse(due)), TimerFires(s.timerId.value));
      r.timerId.None? && r.log == s.log + [Invocation(s.lastArgs.value, s.now + due)]
  {
    var due := Delay(s.lastCallTime + s.opts.wait - s.now) + late;
    var waited := s.(now := s.now + due);
    assert Step(s, Elapse(due)) == waited && Enabled(waited, s.timerId.value);
    assert Step(waited, TimerFires(s.timerId.value)) ==
      TrailingEdge(waited.(live := waited.live - {s.timerId.value}), waited.now);
  }

  /** With trailing on, whenever nothing is pending the last call's arguments are the ones the
      function was last invoked with; and what is pending are those arguments, which the armed
      timer delivers once the wait is over, however late it fires. */
  lemma {:induction false} LastCallWins(opts: Options, evs: seq<Event>, late: real)
    requires FlushesLate(opts, evs) && opts.trailing && LastCall(evs).Some?
    requires late >= 0.0
    ensures var s, args := Run(opts, evs), LastCall(evs).value;
      && (s.lastArgs.None? ==> s.log != [] && s.log[|s.log|-1].args == args)
      && (s.lastArgs.Some? ==>
            && s.timerId.Some?
            && (var due := Delay(s.lastCallTime + opts.wait - s.now) + late;
                var r := Step(Step(s, Elapse(due)), TimerFires(s.timerId.value));
                r.timerId.None? && r.log == s.log + [Invocation(args, s.now + due)]))
  {
    hide Run, Step, LastCall;
    RunKeeps(opts, evs);
    RunDelivers(opts, evs);
    if Run(opts, evs).lastArgs.Some? {
      WaitDelivers(Run(opts, evs), late);
    }
  }

  // ---------------------------------------------------------------- spacing

  predicate Spaced(log: seq<Invocation>, wait: real) {
    forall i :: 0 < i < |log| ==> log[i].time - log[i-1].time >= wait
  }

  predicate NoCancel(evs: seq<Event>) {
    forall e <- evs :: !e.Cancel?
  }

  /** The last invocation is no later than the last call behind an armed timer. With a leading
      edge, and so without a trailing one, it is no later than the last call in any case. */
  ghost predicate Gap(s: State) {
    && Spaced(s.log, s.opts.wait)
    && (s.log != [] ==>
          var last := s.log[|s.log|-1].time;
          && last <= s.now
          && (s.opts.wait > 0.0 && s.timerId.Some? ==> last <= s.lastCallTime)
          && (s.opts.wait > 0.0 && s.opts.leading ==> last <= s.lastCallTime && s.lastCallTime != 0.0))
  }

  lemma StepGap(s: State, e: Event)
    requires Inv(s) && Gap(s) && (e.Flush? ==> FlushIsLate(s))
    requires s.opts.wait <= 0.0 || !s.opts.leading || (!s.opts.trailing && !e.Cancel?)
    ensures Gap(Step(s, e))
  {
  }

  lemma {:induction false} RunGap(opts: Options, evs: seq<Event>)
    requires FlushesLate(opts, evs)
    requires opts.wait <= 0.0 || !opts.leading || (!opts.trailing && NoCancel(evs))
    ensures Gap(Run(opts, evs)) && Run(opts, evs).opts == opts
    decreases |evs|
  {
    hide Step, Inv, Gap;
    if evs == [] {
      InitGap(opts);
    } else {
      var before := evs[..|evs|-1];
      assert evs[|evs|-1] in evs && forall e <- before :: e in evs;
      FlushesLatePrefix(opts, evs);
      RunGap(opts, before);
      RunKeeps(opts, before);
      StepGap(Run(opts, before), evs[|evs|-1]);
      RunKeeps(opts, evs);
    }
  }

  lemma InitGap(opts: Options)
    ensures Gap(Init(opts))
  {
  }

  /** In every run, successive invocations are at least the wait apart. */
  ghost predicate AlwaysSpaced(opts: Options, cancels: bool) {
    forall evs: seq<Event> :: FlushesLate(opts, evs) && (cancels || NoCancel(evs)) ==>
      Spaced(Run(opts, evs).log, opts.wait)
  }

  /** Exactly which options space the invocations: with cancels in the run, a leading edge must
      be off; without, leading and trailing must not both be on. */
  lemma SpacingExactly(opts: Options)
    ensures AlwaysSpaced(opts, false) <==> opts.wait <= 0.0 || !(opts.leading && opts.trailing)
    ensures AlwaysSpaced(opts, true) <==> opts.wait <= 0.0 || !opts.leading
  {
    hide Run, FlushesLate;
    if opts.wait <= 0.0 || !(opts.leading && opts.trailing) {
      forall evs: seq<Event> | FlushesLate(opts, evs) && NoCancel(evs) ensures Spaced(Run(opts, evs).log, opts.wait) {
        RunGap(opts, evs);
      }
    } else {
      TrailingThenLeading(opts);
    }
    if opts.wait <= 0.0 || !opts.leading {
      forall evs: seq<Event> | FlushesLate(opts, evs) ensures Spaced(Run(opts, evs).log, opts.wait) {
        RunGap(opts, evs);
      }
    } else {
      CancelCloses(opts);
    }
  }

  lemma RunOneMore(opts: Options, evs: seq<Event>, e: Event)
    ensures Run(opts, evs + [e]) == Step(Run(opts, evs), e)
  {
    assert (evs + [e])[..|evs|] == evs;
  }

  /** Leading on: a cancel forgets the last call, so the next call invokes at once. */
  lemma CancelCloses(opts: Options)
    requires opts.wait > 0.0 && opts.leading
    ensures !AlwaysSpaced(opts, true)
  {
    var evs := [Call(0)] + [Cancel] + [Call(0)];
    assert Run(opts, [Call(0)]) == Step(Init(opts), Call(0));
    RunOneMore(opts, [Call(0)], Cancel);
    RunOneMore(opts, [Call(0)] + [Cancel], Call(0));
    var log := Run(opts, evs).log;
    assert log[1].time == log[0].time == 1.0 && !Spaced(log, opts.wait);
    assert FlushesLate(opts, evs);
  }

  /** Both edges on: a call at the very moment of a trailing invocation invokes again. */
  lemma TrailingThenLeading(opts: Options)
    requires opts.wait > 0.0 && opts.leading && opts.trailing
    ensures !AlwaysSpaced(opts, false)
  {
    var two := [Call(0)] + [Call(0)];
    var four := two + [Elapse(opts.wait)] + [TimerFires(0)];
    var evs := four + [Call(0)];
    assert Run(opts, [Call(0)]) == Step(Init(opts), Call(0));
    RunOneMore(opts, [Call(0)], Call(0));
    RunOneMore(opts, two, Elapse(opts.wait));
    RunOneMore(opts, two + [Elapse(opts.wait)], TimerFires(0));
    assert Run(opts, four).log == [Invocation(0, 1.0), Invocation(0, 1.0 + opts.wait)];
    RunOneMore(opts, four, Call(0));
    var log := Run(opts, evs).log;
    assert log[2].time == log[1].time && !Spaced(log, opts.wait);
    assert FlushesLate(opts, evs) && NoCancel(evs);
  }
}
