/** Two small protocols over threads: a counter incremented under a scoped write lock, and
    the semaphore handshake between Thread's constructor and Thread::run. */
module Threads {

  // ---------------------------------------------------------------- the guarded counter

  // Outside the loop body, guard taken, count loaded.
  datatype Place = Outside | Inside | Loaded(tmp: int)

  datatype Worker = Worker(left: nat, at: Place)

  datatype Counting = Counting(count: int, workers: seq<Worker>)

  predicate MayStep(c: Counting, t: nat) {
    t < |c.workers| &&
    match c.workers[t].at
    case Outside => c.workers[t].left > 0 && forall u :: 0 <= u < |c.workers| && u != t ==> c.workers[u].at == Outside
    case _ => c.workers[t].left > 0
  }

  // Take the guard, load, or store and drop the guard.
  function StepWorker(c: Counting, t: nat): Counting
    requires MayStep(c, t)
  {
    var w := c.workers[t];
    match w.at
    case Outside => c.(workers := c.workers[t := w.(at := Inside)])
    case Inside => c.(workers := c.workers[t := w.(at := Loaded(c.count))])
    case Loaded(tmp) => Counting(tmp + 1, c.workers[t := Worker(w.left - 1, Outside)])
  }

  function Left(ws: seq<Worker>): nat {
    if ws == [] then 0 else ws[0].left + Left(ws[1..])
  }

  predicate CountingOk(c: Counting) {
    forall t :: 0 <= t < |c.workers| && c.workers[t].at != Outside ==>
      c.workers[t].left > 0 && (c.workers[t].at.Loaded? ==> c.workers[t].at.tmp == c.count) &&
      forall u :: 0 <= u < |c.workers| && u != t ==> c.workers[u].at == Outside
  }

  predicate CanCount(c: Counting, run: seq<nat>)
    decreases run
  {
    run == [] || (MayStep(c, run[0]) && CanCount(StepWorker(c, run[0]), run[1..]))
  }

  function Count(c: Counting, run: seq<nat>): Counting
    requires CanCount(c, run)
    decreases run
  {
    if run == [] then c else Count(StepWorker(c, run[0]), run[1..])
  }

  lemma {:induction false} LeftUpdate(ws: seq<Worker>, t: nat, w: Worker)
    requires t < |ws|
    ensures Left(ws[t := w]) == Left(ws) - ws[t].left + w.left
  {
    if t > 0 {
      assert ws[t := w][1..] == ws[1..][t - 1 := w];
      LeftUpdate(ws[1..], t - 1, w);
    } else {
      assert ws[t := w][1..] == ws[1..];
    }
  }

  // Steps a worker has still to take: three for each increment, less those of the one begun.
  function StepsOf(w: Worker): int {
    3 * w.left - match w.at case Outside => 0 case Inside => 1 case Loaded(_) => 2
  }

  function StepsLeft(ws: seq<Worker>): int {
    if ws == [] then 0 else StepsOf(ws[0]) + StepsLeft(ws[1..])
  }

  lemma {:induction false} StepsLeftUpdate(ws: seq<Worker>, t: nat, w: Worker)
    requires t < |ws|
    ensures StepsLeft(ws[t := w]) == StepsLeft(ws) - StepsOf(ws[t]) + StepsOf(w)
  {
    hide StepsOf;
    if t > 0 {
      assert ws[t := w][1..] == ws[1..][t - 1 := w];
      StepsLeftUpdate(ws[1..], t - 1, w);
    } else {
      assert ws[t := w][1..] == ws[1..];
    }
  }

  /** No increment is lost: over every interleaving, the count plus what is left to do
      stays the same, and each step is one step less to take. */
  lemma {:induction false} NothingLost(c: Counting, run: seq<nat>)
    requires CountingOk(c) && CanCount(c, run)
    ensures CountingOk(Count(c, run)) && |Count(c, run).workers| == |c.workers|
    ensures Count(c, run).count + Left(Count(c, run).workers) == c.count + Left(c.workers)
    ensures |run| + StepsLeft(Count(c, run).workers) == StepsLeft(c.workers)
    decreases run
  {
    if run != [] {
      var t := run[0];
      LeftUpdate(c.workers, t, StepWorker(c, t).workers[t]);
      StepsLeftUpdate(c.workers, t, StepWorker(c, t).workers[t]);
      NothingLost(StepWorker(c, t), run[1..]);
    }
  }

  function Workers(n: nat, k: nat): seq<Worker> {
    if n == 0 then [] else [Worker(k, Outside)] + Workers(n - 1, k)
  }

  lemma {:induction false} WorkersLeft(n: nat, k: nat)
    ensures Left(Workers(n, k)) == n * k && StepsLeft(Workers(n, k)) == 3 * (n * k)
    ensures forall t :: 0 <= t < |Workers(n, k)| ==> Workers(n, k)[t].at == Outside
  {
    if n > 0 {
      WorkersLeft(n - 1, k);
      assert Workers(n, k)[1..] == Workers(n - 1, k);
    }
  }

  // Nothing is left iff no thread has an increment to make or is in one.
  lemma {:induction false} NoneLeftIff(ws: seq<Worker>)
    requires forall t :: 0 <= t < |ws| && ws[t].at != Outside ==> ws[t].left > 0
    ensures StepsLeft(ws) >= 0
    ensures StepsLeft(ws) == 0 <==> forall t :: 0 <= t < |ws| ==> ws[t].left == 0
    ensures (forall t :: 0 <= t < |ws| ==> ws[t].left == 0) ==> Left(ws) == 0
  {
    if ws != [] {
      NoneLeftIff(ws[1..]);
      assert forall t :: 0 < t < |ws| ==> ws[t] == ws[1..][t - 1];
    }
  }

  // While increments are left, the thread inside the guard can step, or else any that has some.
  lemma SomeMayStep(c: Counting)
    requires CountingOk(c) && exists t :: 0 <= t < |c.workers| && c.workers[t].left > 0
    ensures exists t :: 0 <= t && MayStep(c, t)
  {
    if t :| 0 <= t < |c.workers| && c.workers[t].at != Outside {
      assert MayStep(c, t);
    } else {
      var t :| 0 <= t < |c.workers| && c.workers[t].left > 0;
      assert MayStep(c, t);
    }
  }

  /** n threads of k increments each: no interleaving takes more than 3 * n * k steps, one
      that has taken fewer can go on, and one that has taken them all ends at n * k. */
  lemma GuardedCounter(n: nat, k: nat, run: seq<nat>)
    requires CanCount(Counting(0, Workers(n, k)), run)
    ensures var end := Count(Counting(0, Workers(n, k)), run);
      |run| <= 3 * (n * k) && (|run| == 3 * (n * k) ==> end.count == n * k) &&
      (|run| < 3 * (n * k) ==> exists t :: 0 <= t && MayStep(end, t))
  {
    WorkersLeft(n, k);
    NothingLost(Counting(0, Workers(n, k)), run);
    var end := Count(Counting(0, Workers(n, k)), run);
    NoneLeftIff(end.workers);
    if |run| < 3 * (n * k) {
      SomeMayStep(end);
    }
  }

  // ---------------------------------------------------------------- the start handshake

  // Thread::Thread: about to create, waiting on the semaphore, returned, or thrown.
  datatype Parent = Creating | Waiting | Returned | Threw

  // Thread::run: not started, then its statements in order.
  datatype Child = NotStarted | SetLocals | SetId | NameThread | SwapCallback | NotifyParent | CallBack | Done

  // m_id (-1 until set), whether m_cb still holds the callback, the semaphore, and the calls made.
  datatype Handshake = Handshake(parent: Parent, child: Child, id: int, cbInThread: bool, sem: nat, calls: nat)

  datatype Turn = Create(fails: bool) | Wait | ChildStep(tid: nat)

  const BEFORE := Handshake(Creating, NotStarted, -1, true, 0, 0)

  predicate MayTurn(h: Handshake, m: Turn) {
    match m
    case Create(_) => h.parent == Creating
    case Wait => h.parent == Waiting && h.sem > 0
    case ChildStep(_) => h.child != NotStarted && h.child != Done
  }

  function TurnOf(h: Handshake, m: Turn): Handshake
    requires MayTurn(h, m)
  {
    match m
    case Create(fails) => if fails then h.(parent := Threw) else h.(parent := Waiting, child := SetLocals)
    case Wait => h.(parent := Returned, sem := h.sem - 1)
    case ChildStep(tid) =>
      match h.child
      case SetLocals => h.(child := SetId)
      case SetId => h.(child := NameThread, id := tid)
      case NameThread => h.(child := SwapCallback)
      case SwapCallback => h.(child := NotifyParent, cbInThread := false)
      case NotifyParent => h.(child := CallBack, sem := h.sem + 1)
      case CallBack => h.(child := Done, calls := h.calls + 1)
      case _ => h
  }

  function Stage(c: Child): nat {
    match c
    case NotStarted => 0
    case SetLocals => 1
    case SetId => 2
    case NameThread => 3
    case SwapCallback => 4
    case NotifyParent => 5
    case CallBack => 6
    case Done => 7
  }

  predicate HandshakeOk(h: Handshake) {
    (h.child == NotStarted <==> h.parent == Creating || h.parent == Threw) &&
    (h.id >= 0 <==> Stage(h.child) > Stage(SetId)) &&
    (h.cbInThread <==> Stage(h.child) <= Stage(SwapCallback)) &&
    h.sem == (if Stage(h.child) > Stage(NotifyParent) && h.parent == Waiting then 1 else 0) &&
    (h.parent == Returned ==> Stage(h.child) > Stage(NotifyParent)) &&
    h.calls == (if h.child == Done then 1 else 0)
  }

  predicate CanTurns(h: Handshake, run: seq<Turn>)
    decreases run
  {
    run == [] || (MayTurn(h, run[0]) && CanTurns(TurnOf(h, run[0]), run[1..]))
  }

  function Turns(h: Handshake, run: seq<Turn>): Handshake
    requires CanTurns(h, run)
    decreases run
  {
    if run == [] then h else Turns(TurnOf(h, run[0]), run[1..])
  }

  // Turns still to come, at most.
  function TurnsLeft(h: Handshake): nat {
    (if h.parent == Creating then 2 else if h.parent == Waiting then 1 else 0) +
    (if h.parent == Threw then 0 else if h.child == NotStarted then 6 else 7 - Stage(h.child))
  }

  lemma {:induction false} TurnsKeep(h: Handshake, run: seq<Turn>)
    requires HandshakeOk(h) && CanTurns(h, run)
    ensures HandshakeOk(Turns(h, run)) && |run| + TurnsLeft(Turns(h, run)) <= TurnsLeft(h)
    ensures Create(true) in run <==> h.parent != Threw && Turns(h, run).parent == Threw
    ensures Create(true) !in run ==> |run| + TurnsLeft(Turns(h, run)) == TurnsLeft(h)
    decreases run
  {
    if run != [] {
      TurnsKeep(TurnOf(h, run[0]), run[1..]);
      assert run == [run[0]] + run[1..];
    }
  }

  /** In every run: a constructor that has returned leaves the id set and the callback
      taken out of the object; the callback runs at most once and only after the notify;
      a run has at most eight turns; and one that cannot go on has ended well: after exactly
      eight turns the constructor returned and the callback ran, or the thread was never
      created because creating it failed. */
  lemma StartHandshake(run: seq<Turn>)
    requires CanTurns(BEFORE, run)
    ensures var h := Turns(BEFORE, run);
      (h.parent == Returned ==> h.id >= 0 && !h.cbInThread) &&
      h.calls <= 1 && (h.calls == 1 ==> Stage(h.child) > Stage(NotifyParent)) &&
      (h.parent == Threw ==> h.child == NotStarted && h.calls == 0) &&
      |run| <= 8 && (h.parent == Threw <==> Create(true) in run) &&
      ((forall m :: !MayTurn(h, m)) ==>
        h.parent == Threw || (h.parent == Returned && h.child == Done && h.calls == 1 && |run| == 8))
  {
    TurnsKeep(BEFORE, run);
    var h := Turns(BEFORE, run);
    if forall m :: !MayTurn(h, m) {
      assert !MayTurn(h, Create(true)) && !MayTurn(h, ChildStep(0)) && !MayTurn(h, Wait);
    }
  }
}
