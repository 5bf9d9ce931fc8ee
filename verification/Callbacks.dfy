/** jQuery's Callbacks list (app/assets/javascripts/R1.js, line 95) as a step machine.

    A callback is user code, so it can do anything to the list it runs in. The machine
    therefore stops whenever a callback is running: every event that arrives before the
    matching `Return` is something the callback itself does. A run is any sequence of
    events, which covers every script of every callback. */
module Callbacks {
  import opened Wrappers

  /** The three lists of a Deferred, and its state. */
  datatype ListId = DoneList | FailList | ProgressList
  datatype Settled = Pending | Resolved | Rejected

  /** What a list can hold: user functions, and the three closures a Deferred registers. */
  datatype Callback =
    | User(id: nat)
    | SetState(to: Settled)
    | DisableList(target: ListId)
    | LockList(target: ListId)

  /** A token for a call's context and arguments. */
  type Args = nat

  /** An element of the list. `serial` numbers the additions; no operation looks at it. */
  datatype Entry = Entry(cb: Callback, serial: nat)
  datatype Call = Call(entry: Entry, args: Args)
  datatype Options = Options(once: bool, memory: bool, unique: bool, stopOnFalse: bool)

  /** The closure variables of one list. JavaScript's `undefined` and `false` are both None.
      `data` is the argument of the firing loop that is running or ran last.
      The last three fields are history: every addition, the serials taken off the list by a
      request, and every call made. */
  datatype State = State(
    opts: Options,
    memory: Option<Args>,
    fired: bool,
    firing: bool,
    firingStart: nat,
    firingLength: nat,
    firingIndex: int,
    data: Args,
    list: Option<seq<Entry>>,
    stack: Option<seq<Args>>,
    added: seq<Callback>,
    removed: set<nat>,
    calls: seq<Call>)

  datatype Event =
    | Add(cbs: seq<Callback>)
    | Remove(cbs: seq<Callback>)
    | Fire(args: Args)
    | Empty
    | Disable
    | Lock
    | Return(result: bool)

  function Init(opts: Options): State {
    State(opts, None, false, false, 0, 0, 0, 0, Some([]), if opts.once then None else Some([]), [], {}, [])
  }

  ghost predicate Valid(s: State) {
    && s.firingStart == 0
    && (s.firing ==> s.fired && -1 <= s.firingIndex)
    && (s.firing && s.list.Some? ==> s.firingLength == |s.list.value|)
    && (s.firing ==> s.calls != [])
    && Registered(s)
  }

  /** Every entry and every call is one of the additions; a disabled list remembers nothing. */
  ghost predicate Registered(s: State) {
    && (forall c <- s.calls :: c.entry.serial < |s.added| && s.added[c.entry.serial] == c.entry.cb)
    && (s.list.None? ==> s.memory.None?)
    && (s.list.Some? ==> forall e <- s.list.value :: e.serial < |s.added| && s.added[e.serial] == e.cb)
  }

  /** Neither locked nor disabled, nor a `once` list. */
  ghost predicate Open(s: State) {
    s.list.Some? && s.stack.Some?
  }

  // ---------------------------------------------------------------- the firing loop

  function StackSize(s: State): nat {
    if s.stack.Some? then |s.stack.value| else 0
  }

  /** `fire(data)` up to the first callback it calls, or to its end. */
  function Start(s: State, data: Args): (r: State)
    requires s.list.Some? && s.firingStart <= |s.list.value|
    ensures Registered(s) ==> Valid(r)
    ensures r.opts == s.opts && r.added == s.added && r.removed == s.removed
    decreases StackSize(s), 1
  {
    Advance(s.(memory := if s.opts.memory then Some(data) else None,
               fired := true,
               firingIndex := s.firingStart,
               firingStart := 0,
               firingLength := |s.list.value|,
               data := data,
               firing := true))
  }

  /** The loop head: call the next callback, or leave the loop. */
  function Advance(s: State): (r: State)
    requires s.firing && s.firingStart == 0
    requires s.fired && 0 <= s.firingIndex
    requires s.list.Some? ==> s.firingLength == |s.list.value|
    ensures Registered(s) ==> Valid(r)
    ensures r.opts == s.opts && r.added == s.added && r.removed == s.removed
    decreases StackSize(s), 0
  {
    if s.list.Some? && s.firingIndex < s.firingLength then
      s.(calls := s.calls + [Call(s.list.value[s.firingIndex], s.data)])
    else
      Finish(s)
  }

  /** What follows the loop: the next queued firing, or the end of a `once` list. */
  function Finish(s: State): (r: State)
    requires s.firingStart == 0
    ensures Registered(s) ==> Valid(r)
    ensures r.opts == s.opts && r.added == s.added && r.removed == s.removed
    decreases StackSize(s), 0, 0
  {
    var idle := s.(firing := false);
    if idle.list.None? then idle
    else if idle.stack.Some? then
      if idle.stack.value == [] then idle
      else Start(idle.(stack := Some(idle.stack.value[1..])), idle.stack.value[0])
    else if idle.memory.Some? then idle.(list := Some([]))
    else Disabled(idle)
  }

  function Disabled(s: State): State {
    s.(list := None, stack := None, memory := None)
  }

  // ---------------------------------------------------------------- the operations

  predicate Has(es: seq<Entry>, cb: Callback) {
    exists e <- es :: e.cb == cb
  }

  /** Pushing one function; a `unique` list skips those it holds. */
  function Push(s: State, cb: Callback): (r: State)
    requires s.list.Some?
    ensures r.list.Some?
    ensures Registered(s) ==> Registered(r)
  {
    if s.opts.unique && Has(s.list.value, cb) then s
    else s.(list := Some(s.list.value + [Entry(cb, |s.added|)]), added := s.added + [cb])
  }

  function PushAll(s: State, cbs: seq<Callback>): (r: State)
    requires s.list.Some?
    ensures r.list.Some? && |s.list.value| <= |r.list.value|
    ensures r == s.(list := r.list, added := r.added)
    ensures Registered(s) ==> Registered(r)
    decreases |cbs|
  {
    if cbs == [] then s else PushAll(Push(s, cbs[0]), cbs[1..])
  }

  /** `add`: extend a running firing, or fire the new part with the remembered arguments. */
  function AddAll(s: State, cbs: seq<Callback>): (r: State)
    requires Valid(s)
  {
    if s.list.None? then s else
    var start := |s.list.value|;
    var pushed := PushAll(s, cbs);
    if pushed.firing then pushed.(firingLength := |pushed.list.value|)
    else if pushed.memory.Some? then Start(pushed.(firingStart := start), pushed.memory.value)
    else pushed
  }

  /** The list without a callback. */
  function Without(es: seq<Entry>, cb: Callback): (r: seq<Entry>) {
    if es == [] then []
    else
      var init := Without(es[..|es|-1], cb);
      if es[|es|-1].cb == cb then init else init + [es[|es|-1]]
  }

  /** Exactly the entries of other callbacks stay. */
  lemma {:induction false} WithoutMembers(es: seq<Entry>, cb: Callback)
    ensures forall e :: e in Without(es, cb) <==> e in es && e.cb != cb
    ensures |Without(es, cb)| <= |es|
    decreases |es|
  {
    if es != [] {
      WithoutMembers(es[..|es|-1], cb);
      assert es == es[..|es|-1] + [es[|es|-1]];
    }
  }

  function SerialsOf(es: seq<Entry>, cb: Callback): set<nat> {
    set e <- es | e.cb == cb :: e.serial
  }

  function Min(a: int, b: int): int { if a < b then a else b }

  /** `remove` of one callback, said outright: every occurrence leaves the list, and a running
      firing moves its index back by the number of occurrences at or before it. */
  function RemoveOne(s: State, cb: Callback): (r: State)
    requires Valid(s)
    ensures Valid(r) && r.opts == s.opts
  {
    if s.list.None? then s else
    var es := s.list.value;
    WithoutMembers(es, cb);
    var gone := s.(list := Some(Without(es, cb)), removed := s.removed + SerialsOf(es, cb));
    if !s.firing then gone else
    var upTo := Min(s.firingIndex + 1, |es|);
    gone.(firingLength := |Without(es, cb)|,
          firingIndex := s.firingIndex - (upTo - |Without(es[..upTo], cb)|))
  }

  function RemoveAll(s: State, cbs: seq<Callback>): (r: State)
    requires Valid(s)
    ensures Valid(r) && r.opts == s.opts
    decreases |cbs|
  {
    if cbs == [] then s else RemoveAll(RemoveOne(s, cbs[0]), cbs[1..])
  }

  /** `fireWith`: refused once fired without a stack, queued while firing, run otherwise. */
  function FireWith(s: State, args: Args): State
    requires Valid(s)
  {
    if s.list.None? || (s.fired && s.stack.None?) then s
    else if s.firing then s.(stack := Some(s.stack.value + [args]))
    else Start(s, args)
  }

  function AllSerials(s: State): set<nat> {
    if s.list.None? then {} else set e <- s.list.value :: e.serial
  }

  /** `empty` resets the list, even a disabled one, and does not touch the firing index. */
  function EmptyList(s: State): State {
    s.(list := Some([]), firingLength := 0, removed := s.removed + AllSerials(s))
  }

  function DisableNow(s: State): State {
    Disabled(s.(removed := s.removed + AllSerials(s)))
  }

  function LockNow(s: State): State {
    var locked := s.(stack := None);
    if locked.memory.Some? then locked else DisableNow(locked)
  }

  /** The running callback returns and the loop goes on. */
  function ReturnFrom(s: State, result: bool): State
    requires Valid(s) && s.firing
  {
    if !result && s.opts.stopOnFalse then Finish(s.(memory := None))
    else Advance(s.(firingIndex := s.firingIndex + 1))
  }

  function Step(s: State, e: Event): (r: State)
    requires Valid(s)
    ensures Valid(r) && r.opts == s.opts
  {
    match e
    case Add(cbs) => AddAll(s, cbs)
    case Remove(cbs) => RemoveAll(s, cbs)
    case Fire(args) => FireWith(s, args)
    case Empty => EmptyList(s)
    case Disable => DisableNow(s)
    case Lock => LockNow(s)
    case Return(result) => if s.firing then ReturnFrom(s, result) else s
  }

  function Run(opts: Options, evs: seq<Event>): (r: State)
    ensures Valid(r) && r.opts == opts
  {
    if evs == [] then Init(opts) else Step(Run(opts, evs[..|evs|-1]), evs[|evs|-1])
  }
}
