/** jQuery's Deferred (app/assets/javascripts/R1.js, line 95): three callback lists coupled by
    the closures it registers first on its done and fail lists. */
module Deferred {
  import opened Callbacks

  const ONCE_MEMORY := Options(true, true, false, false)
  const MEMORY := Options(false, true, false, false)

  /** `frames` are the lists whose callback is running, the innermost last. */
  datatype DState = DState(state: Settled, lists: map<ListId, State>, frames: seq<ListId>)

  /** User code may add, fire (resolve, reject, notify) and return from its own callback.
      `Tick` runs the closure the Deferred registered, when that is the running callback. */
  datatype DEvent =
    | Attach(target: ListId, ids: seq<nat>)
    | Trigger(target: ListId, args: Args)
    | Leave(result: bool)
    | Tick

  function Other(l: ListId): ListId {
    match l case DoneList => FailList case FailList => DoneList case ProgressList => ProgressList
  }

  function Outcome(l: ListId): Settled {
    match l case DoneList => Resolved case FailList => Rejected case ProgressList => Settled.Pending
  }

  /** The three closures registered on a settling list, in this order. */
  function Internals(l: ListId): seq<Callback> {
    [SetState(Outcome(l)), DisableList(Other(l)), LockList(ProgressList)]
  }

  function Users(ids: seq<nat>): (r: seq<Callback>)
    ensures |r| == |ids| && forall i :: 0 <= i < |r| ==> r[i] == User(ids[i])
  {
    seq(|ids|, i requires 0 <= i < |ids| => User(ids[i]))
  }

  ghost predicate ValidD(d: DState) {
    forall l: ListId :: l in d.lists && Valid(d.lists[l])
  }

  /** A done or fail list as the constructor leaves it. */
  function SettlingInit(l: ListId): (r: State)
    ensures Valid(r)
  {
    Step(Init(ONCE_MEMORY), Add(Internals(l)))
  }

  lemma ThreeLists(lists: map<ListId, State>)
    requires DoneList in lists && FailList in lists && ProgressList in lists
    requires Valid(lists[DoneList]) && Valid(lists[FailList]) && Valid(lists[ProgressList])
    ensures forall l: ListId :: l in lists && Valid(lists[l])
  {
    forall l: ListId ensures l in lists && Valid(lists[l]) {
      match l {
        case DoneList =>
        case FailList =>
        case ProgressList =>
      }
    }
  }

  function InitD(): (r: DState)
    ensures ValidD(r)
  {
    hide SettlingInit;
    var done, fail := SettlingInit(DoneList), SettlingInit(FailList);
    var lists := map[DoneList := done, FailList := fail, ProgressList := Init(MEMORY)];
    ThreeLists(lists);
    DState(Settled.Pending, lists, [])
  }

  function Innermost(d: DState): State
    requires ValidD(d) && d.frames != []
  {
    d.lists[d.frames[|d.frames|-1]]
  }

  /** The callback that list `l` is running. */
  function Current(s: State): Callback
    requires s.calls != []
  {
    s.calls[|s.calls|-1].entry.cb
  }

  /** One of the Deferred's own closures is running, so no user code is. */
  predicate Busy(d: DState)
    requires ValidD(d)
  {
    d.frames != [] && Innermost(d).calls != [] && !Current(Innermost(d)).User?
  }

  /** An operation on a list that user code invokes; it may start that list firing. */
  function Invoke(d: DState, l: ListId, e: Event): (r: DState)
    requires ValidD(d)
    ensures ValidD(r)
  {
    var after := Step(d.lists[l], e);
    DState(d.state, d.lists[l := after],
      if after.firing && !d.lists[l].firing then d.frames + [l] else d.frames)
  }

  /** The innermost callback returns; its list may stop firing. */
  function Unwind(d: DState, result: bool): (r: DState)
    requires ValidD(d) && d.frames != []
    ensures ValidD(r)
  {
    var n := |d.frames| - 1;
    var after := Step(Innermost(d), Return(result));
    DState(d.state, d.lists[d.frames[n] := after], if after.firing then d.frames else d.frames[..n])
  }

  /** What the Deferred's own closures do. */
  function Effect(d: DState, cb: Callback): (r: DState)
    requires ValidD(d)
    ensures ValidD(r) && r.frames == d.frames
  {
    match cb
    case User(_) => d
    case SetState(to) => d.(state := to)
    case DisableList(l) => d.(lists := d.lists[l := Step(d.lists[l], Disable)])
    case LockList(l) => d.(lists := d.lists[l := Step(d.lists[l], Lock)])
  }

  function DStep(d: DState, e: DEvent): (r: DState)
    requires ValidD(d)
    ensures ValidD(r)
  {
    match e
    case Attach(l, ids) => if Busy(d) then d else Invoke(d, l, Add(Users(ids)))
    case Trigger(l, args) => if Busy(d) then d else Invoke(d, l, Fire(args))
    case Leave(result) => if Busy(d) || d.frames == [] then d else Unwind(d, result)
    case Tick => if !Busy(d) then d else Unwind(Effect(d, Current(Innermost(d))), true)
  }

  function DRun(evs: seq<DEvent>): (r: DState)
    ensures ValidD(r)
  {
    if evs == [] then InitD() else DStep(DRun(evs[..|evs|-1]), evs[|evs|-1])
  }
}
