/** The scoped guards of mutex.h, over the state of the mutex they refer to. */
module Guards {
  import opened Locks

  // What a read-write lock remembers; a spinlock is one that is only locked exclusively.
  datatype MutexState = MutexState(readers: nat, writer: bool)

  // rdlock or wrlock returns only once this holds.
  predicate MayLock(m: MutexState, mode: Mode) {
    !m.writer && (mode == Exclusive ==> m.readers == 0)
  }

  function Locked(m: MutexState, mode: Mode): MutexState {
    if mode == Shared then m.(readers := m.readers + 1) else m.(writer := true)
  }

  // pthread_rwlock_unlock gives up whichever kind of hold there is.
  function Unlocked(m: MutexState): MutexState {
    if m.writer then m.(writer := false) else if m.readers > 0 then m.(readers := m.readers - 1) else m
  }

  class RWMutex {
    var state: MutexState

    constructor ()
      ensures state == MutexState(0, false)
    {
      state := MutexState(0, false);
    }

    method LockAs(mode: Mode)
      requires MayLock(state, mode)
      modifies this
      ensures state == Locked(old(state), mode)
    {
      state := Locked(state, mode);
    }

    method Unlock()
      modifies this
      ensures state == Unlocked(old(state))
    {
      state := Unlocked(state);
    }
  }

  // One writer alone, or any number of readers.
  predicate Sound(m: MutexState) {
    !(m.writer && m.readers > 0)
  }

  /** A read-write lock: it may be locked iff that leaves one writer alone or readers only;
      readers share it, and a writer keeps everyone out. */
  lemma MayLockIff(m: MutexState, mode: Mode)
    requires Sound(m)
    ensures MayLock(m, mode) <==> Sound(Locked(m, mode)) && !(mode == Exclusive && m.writer)
    ensures MayLock(m, mode) ==> (forall n :: MayLock(Locked(m, mode), n) <==> mode == n == Shared) && Unlocked(Locked(m, mode)) == m
    ensures Sound(Unlocked(m))
  {
  }

  // The guard together with its mutex.
  datatype GuardState = GuardState(mutex: MutexState, locked: bool)

  datatype GuardOp = LockAgain | UnlockEarly

  // Locking a guard that is locked, or unlocking one that is not, does nothing.
  function GuardStep(g: GuardState, mode: Mode, op: GuardOp): GuardState {
    match op
    case LockAgain => if g.locked then g else GuardState(Locked(g.mutex, mode), true)
    case UnlockEarly => if g.locked then GuardState(Unlocked(g.mutex), false) else g
  }

  // ScopedLockImpl, ReadScopedLockImpl and WriteScopedLockImpl.
  class ScopedGuard {
    const mutex: RWMutex
    const mode: Mode
    var locked: bool

    ghost function State(): GuardState
      reads this, mutex
    {
      GuardState(mutex.state, locked)
    }

    constructor (mutex: RWMutex, mode: Mode)
      requires MayLock(mutex.state, mode)
      modifies mutex
      ensures this.mutex == mutex && this.mode == mode
      ensures State() == GuardState(Locked(old(mutex.state), mode), true)
    {
      this.mutex, this.mode := mutex, mode;
      locked := true;
      new;
      mutex.LockAs(mode);
    }

    method Lock()
      requires !locked ==> MayLock(mutex.state, mode)
      modifies this, mutex
      ensures State() == GuardStep(old(State()), mode, LockAgain)
    {
      if !locked {
        mutex.LockAs(mode);
        locked := true;
      }
    }

    // Also what the destructor does.
    method Unlock()
      modifies this, mutex
      ensures State() == GuardStep(old(State()), mode, UnlockEarly)
    {
      if locked {
        mutex.Unlock();
        locked := false;
      }
    }
  }

  predicate CanGuard(g: GuardState, mode: Mode, ops: seq<GuardOp>)
    decreases ops
  {
    ops == [] ||
    ((ops[0] == LockAgain && !g.locked ==> MayLock(g.mutex, mode)) && CanGuard(GuardStep(g, mode, ops[0]), mode, ops[1..]))
  }

  function GuardRun(g: GuardState, mode: Mode, ops: seq<GuardOp>): GuardState
    decreases ops
  {
    if ops == [] then g else GuardRun(GuardStep(g, mode, ops[0]), mode, ops[1..])
  }

  lemma GuardStepKeeps(m: MutexState, g: GuardState, mode: Mode, op: GuardOp)
    requires MayLock(m, mode) && g.mutex == (if g.locked then Locked(m, mode) else m)
    ensures var end := GuardStep(g, mode, op);
      end.mutex == if end.locked then Locked(m, mode) else m
  {
  }

  lemma {:induction false} GuardKeeps(m: MutexState, g: GuardState, mode: Mode, ops: seq<GuardOp>)
    requires MayLock(m, mode) && g.mutex == (if g.locked then Locked(m, mode) else m)
    requires CanGuard(g, mode, ops)
    ensures var end := GuardRun(g, mode, ops);
      end.mutex == if end.locked then Locked(m, mode) else m
    decreases ops
  {
    if ops != [] {
      GuardStepKeeps(m, g, mode, ops[0]);
      hide MayLock, Locked, GuardStep;
      GuardKeeps(m, GuardStep(g, mode, ops[0]), mode, ops[1..]);
    }
  }

  /** Whatever is done with a guard between its construction and its destruction, the
      mutex is held exactly while m_locked is set, and ends as it was found. */
  lemma GuardsBalance(m: MutexState, mode: Mode, ops: seq<GuardOp>)
    requires MayLock(m, mode) && CanGuard(GuardState(Locked(m, mode), true), mode, ops)
    ensures var end := GuardRun(GuardState(Locked(m, mode), true), mode, ops);
      end.mutex == (if end.locked then Locked(m, mode) else m) &&
      GuardStep(end, mode, UnlockEarly) == GuardState(m, false)
  {
    GuardKeeps(m, GuardState(Locked(m, mode), true), mode, ops);
  }
}
