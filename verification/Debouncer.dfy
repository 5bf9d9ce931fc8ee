/** `debounce` as the source writes it: closure variables that the inner functions assign.
    Every method takes exactly the step of the machine in Debounce.dfy. */
module Debouncers {
  import opened Wrappers
  import opened Debounce

  class Debouncer {
    const opts: Options
    var timerId: Option<nat>
    var lastArgs: Option<Args>
    var lastCallTime: real
    var lastInvokeTime: real
    // The browser's clock and timers, and the calls `func` received.
    var now: real
    var live: map<nat, real>
    var nextId: nat
    var log: seq<Invocation>

    ghost function Value(): State
      reads this
    {
      State(opts, now, live, nextId, timerId, lastArgs, lastCallTime, lastInvokeTime, log)
    }

    constructor (opts: Options)
      ensures Value() == Init(opts)
    {
      this.opts := opts;
      timerId, lastArgs, lastCallTime, lastInvokeTime := None, None, 0.0, 0.0;
      now, live, nextId, log := 1.0, map[], 0, [];
    }

    method Arm(delay: real)
      modifies this
      ensures Value() == SetTimeout(old(Value()), delay)
    {
      live := live[nextId := now + if delay < 0.0 then 0.0 else delay];
      timerId := Some(nextId);
      nextId := nextId + 1;
    }

    method Disarm()
      modifies this
      ensures Value() == ClearTimeout(old(Value()))
    {
      if timerId.Some? {
        live := live - {timerId.value};
      }
    }

    method Invoke(time: real)
      requires lastArgs.Some?
      modifies this
      ensures Value() == InvokeFunc(old(Value()), time)
    {
      var args := lastArgs.value;
      lastArgs := None;
      lastInvokeTime := time;
      log := log + [Invocation(args, time)];
    }

    method Leading(time: real)
      requires lastArgs.Some?
      modifies this
      ensures Value() == LeadingEdge(old(Value()), time)
    {
      lastInvokeTime := time;
      Arm(opts.wait);
      if opts.leading {
        Invoke(time);
      }
    }

    method Trailing(time: real)
      modifies this
      ensures Value() == TrailingEdge(old(Value()), time)
    {
      Disarm();
      timerId := None;
      if opts.trailing && lastArgs.Some? {
        Invoke(time);
      } else {
        lastArgs := None;
      }
    }

    method Due(time: real) returns (due: bool)
      ensures due == ShouldInvoke(Value(), time)
    {
      var timeSinceLastCall := time - lastCallTime;
      due := lastCallTime == 0.0 || timeSinceLastCall >= opts.wait || timeSinceLastCall < 0.0;
    }

    /** The browser fires timer `id`. */
    method Expire(id: nat)
      requires Enabled(Value(), id)
      modifies this
      ensures Value() == Step(old(Value()), TimerFires(id))
    {
      live := live - {id};
      var due := Due(now);
      if due {
        Trailing(now);
      } else {
        Arm(opts.wait - (now - lastCallTime));
      }
    }

    method Call(args: Args)
      modifies this
      ensures Value() == Step(old(Value()), Event.Call(args))
    {
      var isInvoking := Due(now);
      lastArgs := Some(args);
      lastCallTime := now;
      if isInvoking {
        if timerId.None? {
          Leading(lastCallTime);
        } else {
          Disarm();
          Arm(opts.wait);
          Invoke(lastCallTime);
        }
      }
    }

    method Cancel()
      modifies this
      ensures Value() == Step(old(Value()), Event.Cancel)
    {
      Disarm();
      lastCallTime, lastInvokeTime := 0.0, 0.0;
      lastArgs, timerId := None, None;
    }

    method Flush()
      modifies this
      ensures Value() == Step(old(Value()), Event.Flush)
    {
      if timerId.Some? {
        Trailing(now);
      }
    }

    /** The clock moves on; it never goes back. */
    method Elapse(time: real)
      modifies this
      ensures Value() == Step(old(Value()), Event.Elapse(time))
    {
      if time >= 0.0 {
        now := now + time;
      }
    }

    /** One event of a run */
    method Do(e: Event)
      modifies this
      ensures Value() == Step(old(Value()), e)
    {
      match e
      case Call(args) => Call(args);
      case TimerFires(id) => if id in live && live[id] <= now { Expire(id); }
      case Cancel => Cancel();
      case Flush => Flush();
      case Elapse(time) => Elapse(time);
    }
  }

  /** A whole run of the real object invokes the function as the machine's run does. */
  method Drive(opts: Options, evs: seq<Event>) returns (log: seq<Invocation>, pending: Option<Args>)
    ensures log == Run(opts, evs).log && pending == Run(opts, evs).lastArgs
  {
    hide Step;
    var d := new Debouncer(opts);
    for k := 0 to |evs|
      invariant d.Value() == Run(opts, evs[..k])
      invariant fresh(d)
    {
      assert evs[..k + 1][..k] == evs[..k];
      d.Do(evs[k]);
    }
    assert evs[..|evs|] == evs;
    log, pending := d.log, d.lastArgs;
  }
}
