/** FreeTDS's checked mutex (freetds-1.00.21/include/freetds/thread.h, lines 332-403): a raw
    mutex with `locked` and `locked_by` beside it, under any interleaving of any number of
    threads. Every C statement is one step. The raw mutex is non-recursive; waiting on a
    condition releases it in one step and takes it again in a later one, which may come
    without a signal. */
module CheckedMutex {
  import opened Wrappers

  type Tid = nat

  /** Where a thread is. `Outside` and `Holding` are the client's own code. */
  datatype Pc =
    | Outside
    | Locking                                // in lock, before the raw lock
    | Trying(holder: bool)                   // in trylock, before the raw trylock
    | Acquired                               // in lock or trylock: assert(!locked)
    | Marking                                // locked = 1
    | Signing                                // locked_by = me
    | Holding
    | Unlocking                              // assert(locked)
    | Unmarking                              // locked = 0
    | Releasing                              // raw unlock
    | Checking(holder: bool)                 // in check_owned, before the raw trylock
    | CheckTried(holder: bool, failed: bool) // assert(ret)
    | CheckLocked(holder: bool)              // assert(locked)
    | CheckOwner(holder: bool)               // assert(locked_by is me)
    | WaitAssert                             // in wait or timedwait: assert(locked)
    | WaitUnmark                             // locked = 0
    | WaitSleep                              // the raw wait releases the mutex
    | Asleep                                 // until the raw wait has it again
    | WaitMark                               // locked = 1
    | WaitSign                               // locked_by = me

  /** `failed` records that some assert has failed. */
  datatype State = State(pcs: seq<Pc>, raw: Option<Tid>, locked: bool, lockedBy: Tid, failed: bool)

  /** What the client's code calls next. */
  datatype Choice = Lock | TryLock | Unlock | CheckOwned | Wait | Free

  function Init(threads: nat, garbage: Tid): State {
    State(seq(threads, _ => Outside), None, false, garbage, false)
  }

  function Goto(s: State, t: Tid, pc: Pc): State
    requires t < |s.pcs|
  {
    s.(pcs := s.pcs[t := pc])
  }

  function Assert(s: State, ok: bool): State {
    if ok then s else s.(failed := true)
  }

  function Back(holder: bool): Pc {
    if holder then Holding else Outside
  }

  /** A client call. Only a holder unlocks or waits, and a holder does not lock again; anyone
      may try and anyone may check. `Free` is called on a mutex nobody holds. */
  function Begin(s: State, t: Tid, c: Choice): (r: State)
    requires t < |s.pcs| && (s.pcs[t] == Outside || s.pcs[t] == Holding)
    ensures |r.pcs| == |s.pcs|
  {
    var holder := s.pcs[t] == Holding;
    match c
    case Lock => if holder then s else Goto(s, t, Locking)
    case TryLock => Goto(s, t, Trying(holder))
    case Unlock => if holder then Goto(s, t, Unlocking) else s
    case CheckOwned => Goto(s, t, Checking(holder))
    case Wait => if holder then Goto(s, t, WaitAssert) else s
    case Free => if s.raw.None? then Assert(s, !s.locked) else s
  }

  /** One statement of thread `t`. A step that must wait for the raw mutex changes nothing. */
  function Step(s: State, t: Tid, c: Choice): (r: State)
    requires t < |s.pcs|
    ensures |r.pcs| == |s.pcs|
  {
    match s.pcs[t]
    case Outside => Begin(s, t, c)
    case Holding => Begin(s, t, c)
    case Locking => if s.raw.None? then Goto(s, t, Acquired).(raw := Some(t)) else s
    case Trying(holder) =>
      if s.raw.None? then Goto(s, t, Acquired).(raw := Some(t)) else Goto(s, t, Back(holder))
    case Acquired => Goto(Assert(s, !s.locked), t, Marking)
    case Marking => Goto(s, t, Signing).(locked := true)
    case Signing => Goto(s, t, Holding).(lockedBy := t)
    case Unlocking => Goto(Assert(s, s.locked), t, Unmarking)
    case Unmarking => Goto(s, t, Releasing).(locked := false)
    case Releasing => Goto(s, t, Outside).(raw := None)
    case Checking(holder) =>
      if s.raw.None? then Goto(s, t, CheckTried(holder, false)).(raw := Some(t))
      else Goto(s, t, CheckTried(holder, true))
    case CheckTried(holder, failed) => Goto(Assert(s, failed), t, CheckLocked(holder))
    case CheckLocked(holder) => Goto(Assert(s, s.locked), t, CheckOwner(holder))
    case CheckOwner(holder) => Goto(Assert(s, s.lockedBy == t), t, Back(holder))
    case WaitAssert => Goto(Assert(s, s.locked), t, WaitUnmark)
    case WaitUnmark => Goto(s, t, WaitSleep).(locked := false)
    case WaitSleep => Goto(s, t, Asleep).(raw := None)
    case Asleep => if s.raw.None? then Goto(s, t, WaitMark).(raw := Some(t)) else s
    case WaitMark => Goto(s, t, WaitSign).(locked := true)
    case WaitSign => Goto(s, t, Holding).(lockedBy := t)
  }

  /** A scheduler's pick: which thread moves, and what its client code calls if it is there. */
  datatype Move = Move(t: Tid, c: Choice)

  ghost predicate Schedule(threads: nat, moves: seq<Move>) {
    forall m <- moves :: m.t < threads
  }

  ghost function Run(threads: nat, garbage: Tid, moves: seq<Move>): (s: State)
    requires Schedule(threads, moves)
    ensures |s.pcs| == threads
    decreases |moves|
  {
    if moves == [] then Init(threads, garbage)
    else
      var m := moves[|moves|-1];
      hide Step;
      assert m in moves;
      Step(Run(threads, garbage, moves[..|moves|-1]), m.t, m.c)
  }

  // ---------------------------------------------------------------- the invariant

  /** The thread has the raw mutex. */
  predicate Owns(pc: Pc) {
    match pc
    case Outside | Locking | Asleep => false
    case Trying(holder) => holder
    case Checking(holder) => holder
    case CheckTried(holder, failed) => holder || !failed
    case CheckLocked(holder) => holder
    case CheckOwner(holder) => holder
    case _ => true
  }

  /** The owner has set `locked`. */
  predicate Marked(pc: Pc) {
    Owns(pc) && match pc
      case Acquired | Marking | Releasing | WaitSleep | WaitMark => false
      case CheckTried(holder, _) => holder
      case _ => true
  }

  /** The owner has written its id, and `locked` with it. */
  predicate Signed(pc: Pc) {
    Marked(pc) && pc != Signing && pc != WaitSign
  }

  ghost predicate Inv(s: State) {
    && (forall t :: 0 <= t < |s.pcs| ==> (s.raw == Some(t) <==> Owns(s.pcs[t])))
    && (s.raw.Some? ==> s.raw.value < |s.pcs|)
    && (s.locked <==> s.raw.Some? && Marked(s.pcs[s.raw.value]))
    && (s.raw.Some? && Signed(s.pcs[s.raw.value]) ==> s.lockedBy == s.raw.value)
    && (forall t :: 0 <= t < |s.pcs| && s.pcs[t].CheckTried? && s.pcs[t].holder ==> s.pcs[t].failed)
  }

  /** Thread `t` is about to start a check without holding the mutex. */
  predicate StrayCheck(s: State, m: Move)
    requires m.t < |s.pcs|
  {
    s.pcs[m.t] == Outside && m.c == CheckOwned
  }

  predicate InCheck(pc: Pc) {
    pc.Checking? || pc.CheckTried? || pc.CheckLocked? || pc.CheckOwner?
  }

  predicate InStrayCheck(pc: Pc) {
    InCheck(pc) && !pc.holder
  }

  ghost predicate NoStrays(s: State) {
    forall t :: 0 <= t < |s.pcs| ==> !InStrayCheck(s.pcs[t])
  }

  /** What one thread's step may do: take or release the raw mutex, and, while owning it, keep
      `locked` and `locked_by` in line with where it is. */
  ghost predicate Lawful(s: State, r: State, t: Tid)
    requires t < |s.pcs| && |r.pcs| == |s.pcs|
  {
    var pc := r.pcs[t];
    && (if Owns(pc) then r.raw == Some(t) && (s.raw.None? || s.raw == Some(t))
        else r.raw == if s.raw == Some(t) then None else s.raw)
    && (Owns(pc) ==> (r.locked <==> Marked(pc)) && (Signed(pc) ==> r.lockedBy == t))
    && (!Owns(pc) && s.raw == Some(t) ==> !r.locked)
    && (!Owns(pc) && s.raw != Some(t) ==> r.locked == s.locked && r.lockedBy == s.lockedBy)
    && (pc.CheckTried? && pc.holder ==> pc.failed)
  }

  lemma LawfulKeeps(s: State, r: State, t: Tid)
    requires t < |s.pcs| && Inv(s) && r.pcs == s.pcs[t := if t < |r.pcs| then r.pcs[t] else Outside]
    requires Lawful(s, r, t)
    ensures Inv(r)
  {
  }

  lemma BeginLawful(s: State, t: Tid, c: Choice)
    requires t < |s.pcs| && Inv(s) && !s.failed && (s.pcs[t] == Outside || s.pcs[t] == Holding)
    ensures var r := Begin(s, t, c);
      && r.pcs == s.pcs[t := r.pcs[t]] && !r.failed && Lawful(s, r, t)
      && (InStrayCheck(r.pcs[t]) ==> StrayCheck(s, Move(t, c)))
  {
    assert s.raw == Some(t) <==> Owns(s.pcs[t]);
  }

  /** The step is thread `t`'s, it is lawful, and only a stray check fails. */
  ghost predicate Fine(s: State, t: Tid, c: Choice)
    requires t < |s.pcs|
  {
    var r := Step(s, t, c);
    && r.pcs == s.pcs[t := r.pcs[t]]
    && (!r.failed ==> Lawful(s, r, t))
    && (r.failed ==> InStrayCheck(s.pcs[t]))
    && (InStrayCheck(r.pcs[t]) ==> InStrayCheck(s.pcs[t]) || StrayCheck(s, Move(t, c)))
  }

  lemma CheckIsFine(s: State, t: Tid, c: Choice)
    requires t < |s.pcs| && Inv(s) && !s.failed && InCheck(s.pcs[t])
    ensures Fine(s, t, c)
  {
    assert s.raw == Some(t) <==> Owns(s.pcs[t]);
  }

  predicate InLock(pc: Pc) {
    pc.Locking? || pc.Trying? || pc.Acquired? || pc.Marking? || pc.Signing?
  }

  lemma LockIsFine(s: State, t: Tid, c: Choice)
    requires t < |s.pcs| && Inv(s) && !s.failed && InLock(s.pcs[t])
    ensures Fine(s, t, c)
  {
    assert s.raw == Some(t) <==> Owns(s.pcs[t]);
  }

  predicate InClient(pc: Pc) {
    pc.Outside? || pc.Holding?
  }

  lemma ClientIsFine(s: State, t: Tid, c: Choice)
    requires t < |s.pcs| && Inv(s) && !s.failed && InClient(s.pcs[t])
    ensures Fine(s, t, c)
  {
    hide Begin, Lawful, Inv;
    BeginLawful(s, t, c);
  }

  predicate InUnlock(pc: Pc) {
    pc.Unlocking? || pc.Unmarking? || pc.Releasing?
  }

  lemma UnlockIsFine(s: State, t: Tid, c: Choice)
    requires t < |s.pcs| && Inv(s) && !s.failed && InUnlock(s.pcs[t])
    ensures Fine(s, t, c)
  {
    assert s.raw == Some(t) <==> Owns(s.pcs[t]);
  }

  lemma WaitIsFine(s: State, t: Tid, c: Choice)
    requires t < |s.pcs| && Inv(s) && !s.failed
    requires !InCheck(s.pcs[t]) && !InLock(s.pcs[t]) && !InClient(s.pcs[t]) && !InUnlock(s.pcs[t])
    ensures Fine(s, t, c)
  {
    assert s.raw == Some(t) <==> Owns(s.pcs[t]);
  }

  lemma StepLawful(s: State, t: Tid, c: Choice)
    requires t < |s.pcs| && Inv(s) && !s.failed
    ensures Fine(s, t, c)
  {
    hide Fine, Inv;
    if InCheck(s.pcs[t]) {
      CheckIsFine(s, t, c);
    } else if InLock(s.pcs[t]) {
      LockIsFine(s, t, c);
    } else if InClient(s.pcs[t]) {
      ClientIsFine(s, t, c);
    } else if InUnlock(s.pcs[t]) {
      UnlockIsFine(s, t, c);
    } else {
      WaitIsFine(s, t, c);
    }
  }

  /** Every step keeps the invariant; only a stray check can make an assert fail. */
  lemma StepKeeps(s: State, t: Tid, c: Choice)
    requires t < |s.pcs| && Inv(s) && !s.failed
    ensures !Step(s, t, c).failed ==> Inv(Step(s, t, c))
    ensures Step(s, t, c).failed ==> InStrayCheck(s.pcs[t])
    ensures NoStrays(s) && !StrayCheck(s, Move(t, c)) ==> NoStrays(Step(s, t, c))
  {
    hide Step, Inv, Lawful;
    StepLawful(s, t, c);
    if !Step(s, t, c).failed {
      LawfulKeeps(s, Step(s, t, c), t);
    }
  }

  /** A failed assert stays failed. */
  lemma FailedStays(s: State, t: Tid, c: Choice)
    requires t < |s.pcs| && s.failed
    ensures Step(s, t, c).failed
  {
  }

  lemma InitKeeps(threads: nat, garbage: Tid)
    ensures Inv(Init(threads, garbage)) && NoStrays(Init(threads, garbage))
  {
  }

  lemma {:induction false} RunKeeps(threads: nat, garbage: Tid, moves: seq<Move>)
    requires Schedule(threads, moves)
    ensures var s := Run(threads, garbage, moves);
      !s.failed ==> Inv(s)
    decreases |moves|
  {
    hide Step, Inv, NoStrays;
    if moves == [] {
      InitKeeps(threads, garbage);
    } else {
      var before, m := moves[..|moves|-1], moves[|moves|-1];
      assert m in moves && forall x <- before :: x in moves;
      RunKeeps(threads, garbage, before);
      var s := Run(threads, garbage, before);
      if s.failed {
        FailedStays(s, m.t, m.c);
      } else {
        StepKeeps(s, m.t, m.c);
      }
    }
  }

  // ---------------------------------------------------------------- safety

  /** Only holders check. */
  ghost predicate HoldersCheck(threads: nat, garbage: Tid, moves: seq<Move>)
    requires Schedule(threads, moves)
    decreases |moves|
  {
    moves == [] ||
    (var before, m := moves[..|moves|-1], moves[|moves|-1];
    assert m in moves && forall x <- before :: x in moves;
    HoldersCheck(threads, garbage, before) && !StrayCheck(Run(threads, garbage, before), m))
  }

  /** When only holders check, no assert ever fails: not after locking, not before unlocking,
      not before or after waiting, not in a check, not when freeing. */
  lemma {:induction false} NoAssertFails(threads: nat, garbage: Tid, moves: seq<Move>)
    requires Schedule(threads, moves) && HoldersCheck(threads, garbage, moves)
    ensures var s := Run(threads, garbage, moves);
      !s.failed && Inv(s) && NoStrays(s)
    decreases |moves|
  {
    hide Step, Inv, StrayCheck;
    if moves == [] {
      InitKeeps(threads, garbage);
    } else {
      var before, m := moves[..|moves|-1], moves[|moves|-1];
      assert m in moves && forall x <- before :: x in moves;
      NoAssertFails(threads, garbage, before);
      var s := Run(threads, garbage, before);
      StepKeeps(s, m.t, m.c);
    }
  }

  /** At most one thread holds; the holder sees the mutex locked by itself; and a thread that has
      just taken the raw mutex, by locking, trying or waking from a wait, sees it unlocked. */
  lemma MutualExclusion(threads: nat, garbage: Tid, moves: seq<Move>, t: Tid, u: Tid)
    requires Schedule(threads, moves) && !Run(threads, garbage, moves).failed && t < threads && u < threads
    ensures var s := Run(threads, garbage, moves);
      && (Owns(s.pcs[t]) && Owns(s.pcs[u]) ==> t == u)
      && (s.pcs[t] == Holding ==> s.raw == Some(t) && s.locked && s.lockedBy == t)
      && (s.pcs[t] == Acquired || s.pcs[t] == WaitMark ==> s.raw == Some(t) && !s.locked)
  {
    RunKeeps(threads, garbage, moves);
  }

  /** Steps of thread `t` until it is back in client code, if nobody else moves. */
  function ToGo(pc: Pc): nat {
    match pc
    case Outside | Holding => 0
    case Signing | WaitSign | Releasing => 1
    case Marking | WaitMark | Unmarking => 2
    case Acquired | Unlocking | Asleep => 3
    case WaitSleep => 4
    case WaitUnmark => 5
    case WaitAssert => 6
    case Locking => 4
    case Trying(_) => 4
    case CheckOwner(_) => 1
    case CheckLocked(_) => 2
    case CheckTried(_, _) => 3
    case Checking(_) => 4
  }

  /** Inside an operation every step brings its end nearer, except while locking or waking with
      the raw mutex held by another thread. */
  lemma StepCloser(s: State, t: Tid, c: Choice)
    requires Inv(s) && t < |s.pcs| && s.pcs[t] != Outside && s.pcs[t] != Holding
    ensures ToGo(Step(s, t, c).pcs[t]) < ToGo(s.pcs[t])
      || (s.pcs[t] in {Locking, Asleep} && s.raw.Some? && s.raw.value != t)
  {
    hide Begin;
    assert s.raw == Some(t) <==> Owns(s.pcs[t]);
  }

  /** Nothing gets stuck: that other thread is in client code or can itself move on. */
  lemma OwnerMoves(s: State, c: Choice)
    requires Inv(s) && s.raw.Some?
    ensures var o := s.raw.value;
      s.pcs[o] == Holding || ToGo(Step(s, o, c).pcs[o]) < ToGo(s.pcs[o])
  {
    hide Step, ToGo;
    assert Owns(s.pcs[s.raw.value]);
    if s.pcs[s.raw.value] != Holding {
      StepCloser(s, s.raw.value, c);
    }
  }

  // ---------------------------------------------------------------- what a check proves

  /** A stray check that would pass its last assert does so in the moment between another thread's
      two writes: that thread has set `locked` and not yet written its own id. */
  ghost predicate StaleOnly(s: State) {
    forall t :: 0 <= t < |s.pcs| && s.pcs[t] == CheckOwner(false) && s.lockedBy == t ==>
      s.raw.Some? && s.raw.value < |s.pcs| && s.pcs[s.raw.value] in {Signing, WaitSign}
  }

  lemma BeginSigns(s: State, t: Tid, c: Choice)
    requires t < |s.pcs| && (s.pcs[t] == Outside || s.pcs[t] == Holding)
    ensures var r := Begin(s, t, c);
      r.lockedBy == s.lockedBy && !r.pcs[t].CheckOwner?
  {
  }

  /** What a step does to the id, and how a thread gets to the last assert of a stray check. */
  lemma StepSigns(s: State, t: Tid, c: Choice)
    requires t < |s.pcs| && !s.failed && !Step(s, t, c).failed
    ensures var r := Step(s, t, c);
      && (r.lockedBy == t || r.lockedBy == s.lockedBy)
      && (s.pcs[t] in {Signing, WaitSign} ==> r.lockedBy == t)
      && (r.pcs[t] == CheckOwner(false) ==> s.locked && r.raw == s.raw && r.lockedBy == s.lockedBy)
  {
    hide Begin;
    if s.pcs[t] == Outside || s.pcs[t] == Holding {
      BeginSigns(s, t, c);
    }
  }

  lemma StaleOnlyKeeps(s: State, t: Tid, c: Choice)
    requires t < |s.pcs| && Inv(s) && StaleOnly(s) && !s.failed && !Step(s, t, c).failed
    ensures StaleOnly(Step(s, t, c))
  {
    hide Step;
    StepSigns(s, t, c);
    StepLawful(s, t, c);
    assert s.raw == Some(t) <==> Owns(s.pcs[t]);
  }

  lemma {:induction false} RunStaleOnly(threads: nat, garbage: Tid, moves: seq<Move>)
    requires Schedule(threads, moves) && !Run(threads, garbage, moves).failed
    ensures StaleOnly(Run(threads, garbage, moves))
    decreases |moves|
  {
    hide Step, Inv;
    if moves != [] {
      var before, m := moves[..|moves|-1], moves[|moves|-1];
      assert m in moves && forall x <- before :: x in moves;
      var s := Run(threads, garbage, before);
      if s.failed {
        FailedStays(s, m.t, m.c);
      }
      RunStaleOnly(threads, garbage, before);
      RunKeeps(threads, garbage, before);
      StaleOnlyKeeps(s, m.t, m.c);
    }
  }

  /** In every run, a check by a thread that does not hold passes its last assert only while
      another thread owns the raw mutex and has not yet signed, having just locked or woken. */
  lemma StrayCheckPassesOnlyUnsigned(threads: nat, garbage: Tid, moves: seq<Move>, t: Tid, c: Choice)
    requires Schedule(threads, moves) && !Run(threads, garbage, moves).failed && t < threads
    requires Run(threads, garbage, moves).pcs[t] == CheckOwner(false)
    requires !Step(Run(threads, garbage, moves), t, c).failed
    ensures var s := Run(threads, garbage, moves);
      && s.raw.Some? && s.raw.value < threads && s.raw.value != t
      && s.pcs[s.raw.value] in {Signing, WaitSign}
  {
    hide Inv;
    RunStaleOnly(threads, garbage, moves);
  }

  /** A state some schedule reaches. */
  ghost predicate Reachable(threads: nat, garbage: Tid, s: State) {
    exists moves: seq<Move> | Schedule(threads, moves) :: Run(threads, garbage, moves) == s
  }

  lemma Go(threads: nat, garbage: Tid, s: State, t: Tid, c: Choice) returns (r: State)
    requires Reachable(threads, garbage, s) && t < threads == |s.pcs|
    ensures r == Step(s, t, c) && Reachable(threads, garbage, r)
  {
    hide Step;
    var moves: seq<Move> :| Schedule(threads, moves) && Run(threads, garbage, moves) == s;
    var more := moves + [Move(t, c)];
    assert more[..|more|-1] == moves && more[|more|-1] == Move(t, c);
    r := Step(s, t, c);
    assert Run(threads, garbage, more) == r;
  }

  /** A thread locks a free mutex up to the point where `locked` is set. */
  lemma GoMark(threads: nat, garbage: Tid, s: State, t: Tid) returns (r: State)
    requires Reachable(threads, garbage, s) && t < threads == |s.pcs|
    requires s.pcs[t] == Outside && s.raw.None? && !s.locked
    ensures r == s.(pcs := s.pcs[t := Signing], raw := Some(t), locked := true)
    ensures Reachable(threads, garbage, r)
  {
    r := Go(threads, garbage, s, t, Lock);
    r := Go(threads, garbage, r, t, Lock);
    r := Go(threads, garbage, r, t, Lock);
    r := Go(threads, garbage, r, t, Lock);
    assert s.pcs[t := Locking][t := Acquired][t := Marking][t := Signing] == s.pcs[t := Signing];
  }

  /** It signs, and calls unlock up to where `locked` is cleared. */
  lemma GoSign(threads: nat, garbage: Tid, s: State, t: Tid) returns (r: State)
    requires Reachable(threads, garbage, s) && t < threads == |s.pcs|
    requires s.pcs[t] == Signing && s.raw == Some(t) && s.locked
    ensures r == s.(pcs := s.pcs[t := Unmarking], lockedBy := t)
    ensures Reachable(threads, garbage, r)
  {
    r := Go(threads, garbage, s, t, Unlock);
    r := Go(threads, garbage, r, t, Unlock);
    r := Go(threads, garbage, r, t, Unlock);
    assert s.pcs[t := Holding][t := Unlocking][t := Unmarking] == s.pcs[t := Unmarking];
  }

  /** It signs and unlocks. */
  lemma GoUnlock(threads: nat, garbage: Tid, s: State, t: Tid) returns (r: State)
    requires Reachable(threads, garbage, s) && t < threads == |s.pcs|
    requires s.pcs[t] == Signing && s.raw == Some(t) && s.locked
    ensures r == s.(pcs := s.pcs[t := Outside], raw := None, locked := false, lockedBy := t)
    ensures Reachable(threads, garbage, r)
  {
    r := GoSign(threads, garbage, s, t);
    r := Go(threads, garbage, r, t, Unlock);
    r := Go(threads, garbage, r, t, Unlock);
    assert s.pcs[t := Unmarking][t := Releasing][t := Outside] == s.pcs[t := Outside];
  }

  /** It checks, up to the last assert, while another thread has marked the mutex. */
  lemma GoCheck(threads: nat, garbage: Tid, s: State, t: Tid) returns (r: State)
    requires Reachable(threads, garbage, s) && t < threads == |s.pcs|
    requires s.pcs[t] == Outside && s.raw.Some? && s.locked
    ensures r == s.(pcs := s.pcs[t := CheckOwner(false)]) && Reachable(threads, garbage, r)
  {
    r := Go(threads, garbage, s, t, CheckOwned);
    r := Go(threads, garbage, r, t, CheckOwned);
    r := Go(threads, garbage, r, t, CheckOwned);
    r := Go(threads, garbage, r, t, CheckOwned);
    assert s.pcs[t := Checking(false)][t := CheckTried(false, true)][t := CheckLocked(false)][t := CheckOwner(false)]
      == s.pcs[t := CheckOwner(false)];
  }

  /** Such a pass happens: thread 0 has locked and unlocked, thread 1 is locking and has set
      `locked` but not yet `locked_by`, and thread 0's check goes through on its own stale id. */
  lemma StaleIdPasses(garbage: Tid) returns (s: State)
    ensures Reachable(2, garbage, s) && !s.failed
    ensures |s.pcs| == 2 && s.pcs[0] == CheckOwner(false) && s.raw == Some(1)
    ensures !Step(s, 0, CheckOwned).failed && Step(s, 0, CheckOwned).pcs[0] == Outside
  {
    s := Init(2, garbage);
    assert Schedule(2, []) && Run(2, garbage, []) == s;
    s := GoMark(2, garbage, s, 0);
    s := GoUnlock(2, garbage, s, 0);
    s := GoMark(2, garbage, s, 1);
    s := GoCheck(2, garbage, s, 0);
  }
}
