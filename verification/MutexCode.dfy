/** The checked mutex as the C functions write it (freetds-1.00.21/include/freetds/thread.h, lines
    332-403), each run by one thread while the others stand still. Every function is proved to
    take exactly the steps of the machine in CheckedMutex.dfy, and its asserts to hold. */
module MutexCode {
  import opened Wrappers
  import opened CheckedMutex

  /** `n` steps of one thread with nobody else moving. */
  ghost function Alone(s: State, t: Tid, c: Choice, n: nat): (r: State)
    requires t < |s.pcs|
    ensures |r.pcs| == |s.pcs|
    decreases n
  {
    if n == 0 then s else Step(Alone(s, t, c, n - 1), t, c)
  }

  lemma AloneAtFirst(s: State, t: Tid, c: Choice)
    requires t < |s.pcs|
    ensures Alone(s, t, c, 0) == s
  {
  }

  class Mutex {
    var raw: Option<Tid>
    var locked: bool
    var lockedBy: Tid
    ghost var pcs: seq<Pc>

    ghost function Value(): State
      reads this
    {
      State(pcs, raw, locked, lockedBy, false)
    }

    /** The invariant holds, and thread `t` is at `pc`. */
    ghost predicate At(t: Tid, pc: Pc)
      reads this
    {
      t < |pcs| && pcs[t] == pc && Inv(Value())
    }

    /** Thread `t` has done one more statement of the function it called in state `s`. */
    ghost method Moved(s: State, t: Tid, c: Choice, n: nat, before: State, pc: Pc)
      requires t < |s.pcs| && Inv(before) && !before.failed
      requires |pcs| == |s.pcs|
      requires Alone(s, t, c, n) == before && Step(before, t, c) == Value().(pcs := pcs[t := pc])
      modifies this`pcs
      ensures pcs == old(pcs)[t := pc] && Value() == Alone(s, t, c, n + 1) && At(t, pc)
    {
      hide Step, Inv;
      pcs := pcs[t := pc];
      StepKeeps(before, t, c);
    }

    /** `init`; it does not write `locked_by`. */
    constructor (ghost threads: nat, garbage: Tid)
      ensures Value() == Init(threads, garbage) && Inv(Value())
    {
      raw, locked, lockedBy := None, false, garbage;
      pcs := Init(threads, garbage).pcs;
      new;
      InitKeeps(threads, garbage);
    }

    /** The raw, non-recursive mutex: busy for everybody while somebody has it. */
    method RawTryLock(t: Tid) returns (busy: bool)
      modifies this`raw
      ensures busy <==> old(raw).Some?
      ensures raw == if busy then old(raw) else Some(t)
    {
      busy := raw.Some?;
      if !busy {
        raw := Some(t);
      }
    }

    /** What lock and trylock do once they have the raw mutex */
    method Own(t: Tid, ghost s: State, ghost c: Choice, ghost n: nat)
      requires At(t, Acquired) && t < |s.pcs| == |pcs| && Value() == Alone(s, t, c, n)
      modifies this`locked, this`lockedBy, this`pcs
      ensures At(t, Holding) && Value() == Alone(s, t, c, n + 3)
    {
      hide Alone;
      ghost var s2 := Value();
      assert !locked;
      Moved(s, t, c, n, s2, Marking);
      ghost var s3 := Value();
      locked := true;
      Moved(s, t, c, n + 1, s3, Signing);
      ghost var s4 := Value();
      lockedBy := t;
      Moved(s, t, c, n + 2, s4, Holding);
    }

    /** `lock`, once the raw mutex is free */
    method Lock(t: Tid)
      requires At(t, Outside) && raw.None?
      modifies this
      ensures At(t, Holding) && Value() == Alone(old(Value()), t, CheckedMutex.Lock, 5)
    {
      hide Alone;
      ghost var s, c := Value(), CheckedMutex.Lock;
      AloneAtFirst(s, t, c);
      Moved(s, t, c, 0, s, Locking);
      ghost var s1 := Value();
      raw := Some(t);
      Moved(s, t, c, 1, s1, Acquired);
      Own(t, s, c, 2);
    }

    /** `trylock`; a holder gets the answer that the mutex is busy, like anybody else. */
    method TryLock(t: Tid) returns (busy: bool)
      requires At(t, Outside) || At(t, Holding)
      modifies this
      ensures busy <==> old(raw).Some?
      ensures Value() == Alone(old(Value()), t, CheckedMutex.TryLock, if busy then 2 else 5)
      ensures if busy then pcs == old(pcs) else At(t, Holding)
    {
      hide Alone;
      ghost var s, c, holder := Value(), CheckedMutex.TryLock, pcs[t] == Holding;
      AloneAtFirst(s, t, c);
      Moved(s, t, c, 0, s, Trying(holder));
      ghost var s1 := Value();
      busy := RawTryLock(t);
      Moved(s, t, c, 1, s1, if busy then Back(holder) else Acquired);
      if !busy {
        Own(t, s, c, 2);
      }
    }

    method Unlock(t: Tid)
      requires At(t, Holding)
      modifies this
      ensures At(t, Outside) && raw.None? && Value() == Alone(old(Value()), t, CheckedMutex.Unlock, 4)
    {
      hide Alone;
      ghost var s, c := Value(), CheckedMutex.Unlock;
      AloneAtFirst(s, t, c);
      Moved(s, t, c, 0, s, Unlocking);
      ghost var s1 := Value();
      assert locked;
      Moved(s, t, c, 1, s1, Unmarking);
      ghost var s2 := Value();
      locked := false;
      Moved(s, t, c, 2, s2, Releasing);
      ghost var s3 := Value();
      raw := None;
      Moved(s, t, c, 3, s3, Outside);
    }

    /** `check_owned` by a holder: all three asserts hold, and nothing has changed. */
    method CheckOwned(t: Tid)
      requires At(t, Holding)
      modifies this
      ensures Value() == old(Value()) == Alone(old(Value()), t, CheckedMutex.CheckOwned, 5)
    {
      hide Alone;
      ghost var s, c := Value(), CheckedMutex.CheckOwned;
      AloneAtFirst(s, t, c);
      Moved(s, t, c, 0, s, Checking(true));
      ghost var s1 := Value();
      var ret := RawTryLock(t);
      Moved(s, t, c, 1, s1, CheckTried(true, true));
      ghost var s2 := Value();
      assert ret;
      Moved(s, t, c, 2, s2, CheckLocked(true));
      ghost var s3 := Value();
      assert locked;
      Moved(s, t, c, 3, s3, CheckOwner(true));
      ghost var s4 := Value();
      assert lockedBy == t;
      Moved(s, t, c, 4, s4, Holding);
    }

    /** `wait` or `timedwait`, up to where the raw wait has released the mutex */
    method WaitBegin(t: Tid)
      requires At(t, Holding)
      modifies this
      ensures At(t, Asleep) && raw.None? && Value() == Alone(old(Value()), t, Wait, 4)
    {
      hide Alone;
      ghost var s := Value();
      AloneAtFirst(s, t, Wait);
      Moved(s, t, Wait, 0, s, WaitAssert);
      ghost var s1 := Value();
      assert locked;
      Moved(s, t, Wait, 1, s1, WaitUnmark);
      ghost var s2 := Value();
      locked := false;
      Moved(s, t, Wait, 2, s2, WaitSleep);
      ghost var s3 := Value();
      raw := None;
      Moved(s, t, Wait, 3, s3, Asleep);
    }

    /** The rest, from the moment the raw wait can have the mutex back, whatever has happened in
        between */
    method WaitEnd(t: Tid)
      requires At(t, Asleep) && raw.None?
      modifies this
      ensures At(t, Holding) && Value() == Alone(old(Value()), t, Wait, 3)
    {
      ghost var s := Value();
      raw := Some(t);
      Moved(s, t, Wait, 0, s, WaitMark);
      ghost var s1 := Value();
      assert !locked;
      locked := true;
      Moved(s, t, Wait, 1, s1, WaitSign);
      ghost var s2 := Value();
      lockedBy := t;
      Moved(s, t, Wait, 2, s2, Holding);
    }
  }
}
