/** What firing a list of any kind calls, up to its end. */
module FiringLaws {
  import opened Wrappers
  import opened Sequences
  import opened Callbacks
  import OnceMemory

  /** So many callbacks return, none with a false result. */
  function Returned(s: State, n: nat): (r: State)
    requires Valid(s)
    ensures Valid(r) && r.opts == s.opts
    decreases n
  {
    if n == 0 then s else Returned(Step(s, Return(true)), n - 1)
  }

  lemma {:induction false} ReturnedTwice(s: State, m: nat, n: nat)
    requires Valid(s)
    ensures Returned(s, m + n) == Returned(Returned(s, m), n)
    decreases m
  {
    hide Step, Valid;
    if m > 0 {
      ReturnedTwice(Step(s, Return(true)), m - 1, n);
    }
  }

  lemma {:induction false} IdleReturned(s: State, n: nat)
    requires Valid(s) && !s.firing
    ensures Returned(s, n) == s
    decreases n
  {
    if n > 0 {
      IdleReturned(s, n - 1);
    }
  }

  /** Each entry is called once, in order. */
  function CallsOf(es: seq<Entry>, args: Args): (calls: seq<Call>)
    ensures |calls| == |es|
  {
    seq(|es|, i requires 0 <= i < |es| => Call(es[i], args))
  }

  /** A round for each of the waiting arguments. */
  function RoundsOf(es: seq<Entry>, waiting: seq<Args>): seq<Call> {
    if waiting == [] then [] else CallsOf(es, waiting[0]) + RoundsOf(es, waiting[1..])
  }

  lemma {:induction false} NoRounds(waiting: seq<Args>)
    ensures RoundsOf([], waiting) == []
    decreases |waiting|
  {
    if waiting != [] {
      NoRounds(waiting[1..]);
    }
  }

  lemma {:induction false} OneRoundMore(es: seq<Entry>, waiting: seq<Args>, args: Args)
    ensures RoundsOf(es, waiting + [args]) == RoundsOf(es, waiting) + CallsOf(es, args)
    decreases |waiting|
  {
    if waiting == [] {
      assert [args][1..] == [] && CallsOf(es, args) + [] == CallsOf(es, args);
    } else {
      OneRoundMore(es, waiting[1..], args);
      assert (waiting + [args])[1..] == waiting[1..] + [args];
      Assoc(CallsOf(es, waiting[0]), RoundsOf(es, waiting[1..]), CallsOf(es, args));
    }
  }

  // ---------------------------------------------------------------- one round

  /** A return calls the next one of the round. */
  lemma NextIsCalled(s: State)
    requires Valid(s) && s.firing && OnceMemory.Pending(s) != []
    ensures var r := Step(s, Return(true));
      && r == s.(firingIndex := s.firingIndex + 1, calls := s.calls + [Call(OnceMemory.Pending(s)[0], s.data)])
      && OnceMemory.Pending(r) == OnceMemory.Pending(s)[1..]
  {
  }

  lemma RoundEnds(s: State)
    requires Valid(s) && s.firing && OnceMemory.Pending(s) == []
    ensures Step(s, Return(true)) == Finish(s.(firingIndex := s.firingIndex + 1))
  {
  }

  lemma NoCalls(args: Args, calls: seq<Call>)
    ensures calls + CallsOf([], args) == calls
  {
  }

  lemma FirstCall(es: seq<Entry>, args: Args, calls: seq<Call>)
    requires es != []
    ensures calls + CallsOf(es, args) == (calls + [Call(es[0], args)]) + CallsOf(es[1..], args)
  {
    assert CallsOf(es, args) == [Call(es[0], args)] + CallsOf(es[1..], args);
    Assoc(calls, [Call(es[0], args)], CallsOf(es[1..], args));
  }

  /** The rest of the round: every entry that is still to be called, in order. */
  lemma {:induction false} RestOfRound(s: State)
    requires Valid(s) && s.firing
    ensures var p := OnceMemory.Pending(s);
      var r := Returned(s, |p|);
      && r == s.(firingIndex := s.firingIndex + |p|, calls := s.calls + CallsOf(p, s.data))
      && OnceMemory.Pending(r) == []
    decreases |OnceMemory.Pending(s)|
  {
    hide Step, Valid, OnceMemory.Pending, CallsOf;
    var p := OnceMemory.Pending(s);
    if p == [] {
      NoCalls(s.data, s.calls);
    } else {
      NextIsCalled(s);
      FirstCall(p, s.data, s.calls);
      RestOfRound(Step(s, Return(true)));
    }
  }

  /** After the rest of the round and one more return the loop has ended. */
  lemma RoundThenFinish(s: State) returns (last: State)
    requires Valid(s) && s.firing
    ensures var p := OnceMemory.Pending(s);
      && last == s.(firingIndex := s.firingIndex + |p| + 1, calls := s.calls + CallsOf(p, s.data))
      && Registered(last)
      && Returned(s, |p| + 1) == Finish(last)
  {
    hide Step, OnceMemory.Pending, CallsOf, Registered;
    var p := OnceMemory.Pending(s);
    var r := Returned(s, |p|);
    RestOfRound(s);
    RoundEnds(r);
    ReturnedTwice(s, |p|, 1);
    assert Returned(r, 1) == Step(r, Return(true)) by {
      assert Returned(Step(r, Return(true)), 0) == Step(r, Return(true));
    }
    last := r.(firingIndex := r.firingIndex + 1);
    SameEntries(r, last);
  }

  lemma SameEntries(r: State, last: State)
    requires Registered(r) && last == r.(firingIndex := last.firingIndex)
    ensures Registered(last)
  {
  }

  // ---------------------------------------------------------------- the waiting fires

  /** `r` is idle, with the same list, nothing waiting, and these calls more. */
  ghost predicate Done(s: State, r: State, calls: seq<Call>) {
    !r.firing && r.list == s.list && r.stack == Some([]) && r.calls == s.calls + calls
  }

  /** The loop begins again with the first waiting arguments. */
  function Next(s: State): State
    requires Open(s) && s.stack.value != []
  {
    var args := s.stack.value[0];
    Begun(s.(stack := Some(s.stack.value[1..])), args)
  }

  /** The state at the loop head. */
  function Begun(s: State, args: Args): State
    requires s.list.Some?
  {
    s.(memory := if s.opts.memory then Some(args) else None, fired := true, firingIndex := s.firingStart,
       firingStart := 0, firingLength := |s.list.value|, data := args, firing := true)
  }

  lemma StartIs(s: State, args: Args)
    requires s.list.Some? && s.firingStart <= |s.list.value|
    ensures var es, begun := s.list.value, Begun(s, args);
      Start(s, args) == if s.firingStart < |es| then begun.(calls := s.calls + [Call(es[s.firingStart], args)])
                        else Finish(begun)
  {
    assert Start(s, args) == Advance(Begun(s, args));
  }

  lemma FinishIs(s: State)
    requires s.firingStart == 0 && Open(s)
    ensures s.stack.value == [] ==> Finish(s) == s.(firing := false)
    ensures s.stack.value != [] && s.list.value != [] ==>
      Finish(s) == Next(s).(calls := s.calls + [Call(s.list.value[0], s.stack.value[0])])
    ensures s.stack.value != [] && s.list.value == [] ==> Finish(s) == Finish(Next(s))
  {
    if s.stack.value != [] {
      var idle := s.(firing := false, stack := Some(s.stack.value[1..]));
      assert Finish(s) == Start(idle, s.stack.value[0]);
      StartIs(idle, s.stack.value[0]);
    }
  }

  /** What waits when a round has ended gets its rounds, each over the whole list. */
  lemma {:induction false} FinishDrains(s: State)
    requires s.firingStart == 0 && Open(s) && Registered(s)
    ensures Valid(Finish(s))
    ensures Done(s, Returned(Finish(s), Turns(s)), RoundsOf(s.list.value, s.stack.value))
    decreases |s.stack.value|, 0
  {
    hide Valid, Registered, Finish, CallsOf, Done, Turns;
    var es, waiting := s.list.value, s.stack.value;
    FinishIs(s);
    NextRegistered(s);
    TurnsAre(s);
    if waiting == [] {
      IdleReturned(Finish(s), 0);
      DoneAtOnce(s);
    } else if es == [] {
      NoRounds(waiting);
      NoRounds(waiting[1..]);
      FinishDrains(Next(s));
      SameDone(s, Next(s), Returned(Finish(s), 0), []);
    } else {
      var begun := Finish(s);
      BegunPending(begun, es, waiting[0]);
      SameTurns(Next(s), begun);
      FiringRunsOut(begun);
      DoneFrom(s, begun, Returned(begun, Turns(s)), es, waiting[0], RoundsOf(es, waiting[1..]));
    }
  }

  /** How many returns the waiting fires take. */
  function Turns(s: State): nat
    requires Open(s)
  {
    |s.stack.value| * |s.list.value|
  }

  lemma TurnsAre(s: State)
    requires Open(s)
    ensures s.stack.value == [] || s.list.value == [] ==> Turns(s) == 0
    ensures s.stack.value != [] ==> Turns(s) == |s.list.value| + Turns(Next(s))
  {
    if s.stack.value != [] {
      assert Turns(s) == (1 + (|s.stack.value| - 1)) * |s.list.value|;
    }
  }

  lemma DoneAtOnce(s: State)
    requires s.stack == Some([])
    ensures Done(s, s.(firing := false), [])
  {
    assert s.calls + [] == s.calls;
  }

  lemma SameDone(s: State, next: State, r: State, calls: seq<Call>)
    requires Done(next, r, calls) && next.list == s.list && next.calls == s.calls
    ensures Done(s, r, calls)
  {
  }

  lemma DoneFrom(s: State, begun: State, r: State, es: seq<Entry>, args: Args, rest: seq<Call>)
    requires es != [] && begun.list == s.list && begun.calls == s.calls + [Call(es[0], args)]
    requires Done(begun, r, CallsOf(es[1..], args) + rest)
    ensures Done(s, r, CallsOf(es, args) + rest)
  {
    hide CallsOf;
    FirstCall(es, args, s.calls);
    Assoc(s.calls, CallsOf(es, args), rest);
    Assoc(begun.calls, CallsOf(es[1..], args), rest);
  }

  lemma DoneThen(s: State, last: State, r: State, p: seq<Call>, rest: seq<Call>)
    requires last.list == s.list && last.calls == s.calls + p && Done(last, r, rest)
    ensures Done(s, r, p + rest)
  {
    Assoc(s.calls, p, rest);
  }

  lemma NextRegistered(s: State)
    requires Registered(s) && s.firingStart == 0 && Open(s)
    ensures Valid(Finish(s))
    ensures s.stack.value != [] ==> Registered(Next(s))
  {
  }

  lemma BegunPending(s: State, es: seq<Entry>, args: Args)
    requires s.firing && s.firingIndex == 0 && s.list == Some(es) && es != []
    ensures OnceMemory.Pending(s) == es[1..]
  {
  }

  /** A firing of an open list runs out: it calls what is still to be called with its arguments, then
      the whole list once for each waiting fire, in their order, and nothing waits any more. */
  lemma {:induction false} FiringRunsOut(s: State)
    requires Valid(s) && s.firing && Open(s)
    ensures var p, es, waiting := OnceMemory.Pending(s), s.list.value, s.stack.value;
      Done(s, Returned(s, |p| + 1 + Turns(s)), CallsOf(p, s.data) + RoundsOf(es, waiting))
    decreases |s.stack.value|, 1
  {
    hide Registered, Finish, CallsOf, RoundsOf, OnceMemory.Pending, Done, Returned, Turns;
    var p, turns := OnceMemory.Pending(s), Turns(s);
    var last := RoundThenFinish(s);
    SameTurns(s, last);
    AtZero(s);
    FinishDrains(last);
    ReturnedTwice(s, |p| + 1, turns);
    DoneThen(s, last, Returned(s, |p| + 1 + turns), CallsOf(p, s.data), RoundsOf(s.list.value, s.stack.value));
  }

  lemma AtZero(s: State)
    requires Valid(s)
    ensures s.firingStart == 0
  {
  }

  lemma SameTurns(s: State, r: State)
    requires Open(s) && r.list == s.list && r.stack == s.stack
    ensures Turns(r) == Turns(s)
  {
  }

  /** The firing of a list without a stack, "once" or locked, runs out the same way and clears the
      list, or disables it if nothing is remembered. */
  lemma LastFiringRunsOut(s: State)
    requires Valid(s) && s.firing && s.list.Some? && s.stack.None?
    ensures var p := OnceMemory.Pending(s);
      var r := Returned(s, |p| + 1);
      && !r.firing && r.calls == s.calls + CallsOf(p, s.data) && r.memory == s.memory && r.stack.None?
      && r.list == if s.memory.Some? then Some([]) else None
  {
    hide Registered, CallsOf, OnceMemory.Pending;
    var last := RoundThenFinish(s);
  }

  // ---------------------------------------------------------------- fire and add

  /** Firing an idle list that is open, or was never fired, calls exactly its functions, in order, each
      once, with the arguments; then it is idle again. */
  lemma FireCallsAll(s: State, args: Args)
    requires Valid(s) && !s.firing && s.list.Some? && StackSize(s) == 0 && (s.stack.Some? || !s.fired)
    ensures var es, r := s.list.value, Returned(Step(s, Fire(args)), |s.list.value|);
      && r.calls == s.calls + CallsOf(es, args) && !r.firing && r.fired
      && (s.stack.Some? ==> r.list == s.list && r.stack == s.stack)
      && (s.stack.None? ==> r.list == if s.opts.memory then Some([]) else None)
  {
    hide CallsOf, OnceMemory.Pending;
    var es, begun := s.list.value, Step(s, Fire(args));
    assert begun == Start(s, args);
    StartIs(s, args);
    if es == [] {
      NoCalls(args, s.calls);
      IdleReturned(begun, 0);
    } else {
      BegunPending(begun, es, args);
      FirstCall(es, args, s.calls);
      RunsOut(begun);
    }
  }

  /** Both kinds, when nothing waits. */
  lemma RunsOut(s: State)
    requires Valid(s) && s.firing && s.list.Some? && StackSize(s) == 0
    ensures var p := OnceMemory.Pending(s);
      var r := Returned(s, |p| + 1);
      && !r.firing && r.calls == s.calls + CallsOf(p, s.data) && r.fired
      && (s.stack.Some? ==> r.list == s.list && r.stack == s.stack)
      && (s.stack.None? ==> r.list == if s.memory.Some? then Some([]) else None)
  {
    hide Registered, CallsOf, OnceMemory.Pending;
    var last := RoundThenFinish(s);
  }

  /** A fire during a firing waits: its round is the last one, after all that waited before it. */
  lemma FireWaits(s: State, args: Args)
    requires Valid(s) && s.firing && Open(s)
    ensures var p, es, waiting := OnceMemory.Pending(s), s.list.value, s.stack.value;
      Done(s, Returned(Step(s, Fire(args)), |p| + 1 + Turns(s) + |es|),
        CallsOf(p, s.data) + (RoundsOf(es, waiting) + CallsOf(es, args)))
  {
    hide CallsOf, RoundsOf, Returned;
    var waiting, queued := s.stack.value, Step(s, Fire(args));
    assert queued == s.(stack := Some(waiting + [args]));
    FiringRunsOut(queued);
    assert Turns(queued) == Turns(s) + |s.list.value|;
    OneRoundMore(s.list.value, waiting, args);
  }

  /** The entries of new additions. */
  function NewEntries(n: nat, cbs: seq<Callback>): (es: seq<Entry>)
    ensures |es| == |cbs|
  {
    seq(|cbs|, i requires 0 <= i < |cbs| => Entry(cbs[i], n + i))
  }

  lemma {:induction false} PushedAre(s: State, cbs: seq<Callback>)
    requires s.list.Some? && !s.opts.unique
    ensures PushAll(s, cbs) ==
      s.(list := Some(s.list.value + NewEntries(|s.added|, cbs)), added := s.added + cbs)
    decreases |cbs|
  {
    hide NewEntries;
    var es, n := s.list.value, |s.added|;
    NewStep(es, n, cbs);
    if cbs == [] {
      assert s.added + [] == s.added;
    } else {
      var next := Push(s, cbs[0]);
      assert next == s.(list := Some(es + [Entry(cbs[0], n)]), added := s.added + [cbs[0]]);
      PushedAre(next, cbs[1..]);
      assert PushAll(s, cbs) == PushAll(next, cbs[1..]);
      assert (s.added + [cbs[0]]) + cbs[1..] == s.added + cbs;
    }
  }

  lemma NewStep(es: seq<Entry>, n: nat, cbs: seq<Callback>)
    ensures es + NewEntries(n, []) == es
    ensures cbs != [] ==> es + NewEntries(n, cbs) == (es + [Entry(cbs[0], n)]) + NewEntries(n + 1, cbs[1..])
  {
    if cbs != [] {
      assert NewEntries(n, cbs) == [Entry(cbs[0], n)] + NewEntries(n + 1, cbs[1..]);
    }
  }

  /** Adding to a list that is not `unique` puts every function behind the others. During a firing the
      new ones are called in the same round, after what is still to be called, unless an `empty` has
      left the index behind the end. On an idle list that remembers nothing nothing is called. */
  lemma AddGoesBehind(s: State, cbs: seq<Callback>)
    requires Valid(s) && s.list.Some? && !s.opts.unique
    ensures var es, r := NewEntries(|s.added|, cbs), Step(s, Add(cbs));
      && r.added == s.added + cbs
      && (cbs != [] ==> r.list == Some(s.list.value + es))
      && (s.firing ==> r.firing && r.data == s.data && r.calls == s.calls)
      && (s.firing && s.firingIndex < |s.list.value| ==> OnceMemory.Pending(r) == OnceMemory.Pending(s) + es)
      && (!s.firing && s.memory.None? ==> !r.firing && r.calls == s.calls)
  {
    hide Registered, NewEntries, Start, PushAll;
    PushedAre(s, cbs);
    var pushed := PushAll(s, cbs);
    if !s.firing && s.memory.Some? {
      StartIs(pushed.(firingStart := |s.list.value|), s.memory.value);
    }
  }

  /** Adding to an idle list that remembers a fire calls exactly the new functions, in order, each once,
      with the remembered arguments; then it is idle again. */
  lemma AddCallsNew(s: State, cbs: seq<Callback>)
    requires Valid(s) && s.list.Some? && !s.opts.unique && !s.firing && s.memory.Some? && StackSize(s) == 0
    ensures var es, r := NewEntries(|s.added|, cbs), Returned(Step(s, Add(cbs)), |cbs|);
      !r.firing && r.calls == s.calls + CallsOf(es, s.memory.value)
  {
    hide Valid, Step, CallsOf, NewEntries, OnceMemory.Pending;
    var es, r, args := NewEntries(|s.added|, cbs), Step(s, Add(cbs)), s.memory.value;
    AddBegins(s, cbs);
    if cbs == [] {
      NoCalls(args, s.calls);
      IdleReturned(r, 0);
    } else {
      NewPending(r, s.list.value, es);
      FirstCall(es, args, s.calls);
      RunsOut(r);
    }
  }

  lemma AddBegins(s: State, cbs: seq<Callback>)
    requires Valid(s) && s.list.Some? && !s.opts.unique && !s.firing && s.memory.Some? && StackSize(s) == 0
    ensures var es, r := NewEntries(|s.added|, cbs), Step(s, Add(cbs));
      && (cbs == [] ==> !r.firing && r.calls == s.calls)
      && (cbs != [] ==>
            && r.list == Some(s.list.value + es) && r.firing && r.firingIndex == |s.list.value|
            && r.data == s.memory.value && r.calls == s.calls + [Call(es[0], r.data)] && StackSize(r) == 0)
  {
    hide Registered, Start, PushAll;
    var es, args := NewEntries(|s.added|, cbs), s.memory.value;
    PushedAre(s, cbs);
    StartIs(PushAll(s, cbs).(firingStart := |s.list.value|), args);
    if cbs != [] {
      assert (s.list.value + es)[|s.list.value|] == es[0];
    }
  }

  lemma NewPending(r: State, es: seq<Entry>, added: seq<Entry>)
    requires r.list == Some(es + added) && added != [] && r.firing && r.firingIndex == |es|
    ensures OnceMemory.Pending(r) == added[1..] && r.list.value[|es|] == added[0]
  {
  }

  /** A false result on a `stopOnFalse` list drops the rest of the round and forgets its arguments: an
      open list goes on with the rounds of the waiting fires, one without a stack is disabled. Other
      lists do not look at results. */
  lemma FalseStops(s: State)
    requires Valid(s) && s.firing
    ensures var r := Step(s, Return(false));
      && (!s.opts.stopOnFalse ==> r == Step(s, Return(true)))
      && (s.opts.stopOnFalse && Open(s) ==>
            && Done(s, Returned(r, Turns(s)), RoundsOf(s.list.value, s.stack.value))
            && (s.stack.value == [] ==> r.memory.None?))
      && (s.opts.stopOnFalse && s.stack.None? ==> !r.firing && r.calls == s.calls && r.list.None?)
  {
    hide Finish, Returned, RoundsOf;
    if s.opts.stopOnFalse {
      var last := s.(memory := None);
      if Open(s) {
        FinishDrains(last);
        FinishIs(last);
      } else if s.stack.None? {
        LastFinish(last);
      }
    }
  }

  lemma LastFinish(s: State)
    requires s.firingStart == 0 && s.stack.None? && s.memory.None?
    ensures var r := Finish(s);
      !r.firing && r.calls == s.calls && r.list.None?
  {
  }

  // ---------------------------------------------------------------- runs

  /** A disabled list has no stack, and nothing waits between firings. */
  ghost predicate Drained(s: State) {
    (s.list.None? ==> s.stack.None?) && (!s.firing ==> StackSize(s) == 0)
  }

  lemma {:induction false} FinishDrained(s: State)
    requires s.firingStart == 0 && (s.list.None? ==> s.stack.None?)
    ensures Drained(Finish(s))
    decreases StackSize(s)
  {
    if s.list.Some? && s.stack.Some? && s.stack.value != [] {
      FinishIs(s);
      if s.list.value == [] {
        FinishDrained(Next(s));
      }
    }
  }

  lemma StartDrained(s: State, args: Args)
    requires s.list.Some? && s.firingStart <= |s.list.value| && StackSize(s) == 0
    ensures Drained(Start(s, args))
  {
    StartIs(s, args);
    FinishDrained(Begun(s, args));
  }

  lemma StepDrained(s: State, e: Event)
    requires Valid(s) && Drained(s)
    ensures Drained(Step(s, e))
  {
    hide Valid, Start;
    AtZero(s);
    match e
    case Add(cbs) =>
      if s.list.Some? && !s.firing {
        var pushed := PushAll(s, cbs).(firingStart := |s.list.value|);
        if pushed.memory.Some? {
          StartDrained(pushed, pushed.memory.value);
        }
      }
    case Fire(args) =>
      if s.list.Some? && !s.firing {
        StartDrained(s, args);
      }
    case Remove(cbs) => RemoveDrained(s, cbs);
    case Return(result) =>
      if s.firing {
        FinishDrained(s.(memory := None));
        FinishDrained(s.(firingIndex := s.firingIndex + 1));
      }
    case _ =>
  }

  lemma {:induction false} RemoveDrained(s: State, cbs: seq<Callback>)
    requires Valid(s) && Drained(s)
    ensures Drained(RemoveAll(s, cbs))
    decreases |cbs|
  {
    if cbs != [] {
      RemoveDrained(RemoveOne(s, cbs[0]), cbs[1..]);
    }
  }

  /** Between firings no fire waits, in any run of any list. */
  lemma {:induction false} NothingWaits(opts: Options, evs: seq<Event>)
    ensures Drained(Run(opts, evs))
    decreases |evs|
  {
    hide Step, Valid;
    if evs != [] {
      NothingWaits(opts, evs[..|evs|-1]);
      StepDrained(Run(opts, evs[..|evs|-1]), evs[|evs|-1]);
    }
  }
}
