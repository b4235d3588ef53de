/** Which locks each operation nests, and any number of threads running operations as
    interleaved lock steps: no deadlock, mutual exclusion, and every run ends. */
module Locks {
  datatype Lock =
    | RegistryLock        // Config::GetMutex()
    | VarLock(id: nat)    // ConfigVar::s_mutex
    | ManagerLock         // LoggerManager::m_mutex
    | LoggerLock(id: nat) // Logger::m_mutex of a logger other than the root
    | RootLock            // Logger::m_mutex of the root logger
    | AppenderLock(id: nat)

  // Any order among the variables that matter; a callback may take them in ascending order.
  datatype Order = Order(top: nat, of: nat -> nat)

  function Rank(o: Order, l: Lock): int {
    match l
    case RegistryLock => 0
    case VarLock(id) => if o.of(id) < o.top then 1 + o.of(id) else 1 + o.top
    case ManagerLock => 2 + o.top
    case LoggerLock(_) => 3 + o.top
    case RootLock => 4 + o.top
    case AppenderLock(_) => 5 + o.top
  }

  // Shared is a ReadLock; a WriteLock and a Spinlock::Lock are exclusive.
  datatype Mode = Shared | Exclusive

  // The lifetime of one scoped guard, with the guards created inside it.
  datatype Scope = Scope(lock: Lock, mode: Mode, body: seq<Scope>)

  // ---------------------------------------------------------------- operations

  // An appender that lets an event through; a file appender may reopen its file first.
  datatype Output = Output(appender: nat, reopens: bool)

  // An appender a logger walks over, and whether the walk changes its formatter.
  datatype Visited = Visited(appender: nat, changes: bool)

  datatype WhichLogger = Root | Named(id: nat)

  /** The operations that lock, with everything their control flow can depend on as data.
      Callbacks are whatever guards the user's code creates. */
  datatype Op =
    | LogThrough(logger: WhichLogger, outputs: seq<Output>)       // Logger::log, own appenders
    | LogByRoot(id: nat, rootPasses: bool, outputs: seq<Output>)  // Logger::log, delegated to the root
    | AddAppender(logger: WhichLogger, appender: nat, inherits: bool)
    | SetFormatter(logger: WhichLogger, visited: seq<Visited>)
    | TouchLogger(logger: WhichLogger)                            // setLevel, delAppender, clearAppender, getFormatter
    | TouchAppender(appender: nat)                                // the appender's own setters and getters
    | LoggerToYaml(logger: WhichLogger, visited: seq<Visited>)
    | ManagerToYaml(parts: seq<(WhichLogger, seq<Visited>)>)
    | SetVar(id: nat, changes: bool, callbacks: seq<Scope>)       // setValue, fromString
    | ReadVar(id: nat)                                            // getValue, toString
    | ChangeListeners(id: nat)                                    // addListener, delListenner, clearListener
    | LookupBase                                                  // also Lookup without default
    | LookupDefault(logs: bool, outputs: seq<Output>)             // Lookup with default; may log through the root
    | Visit(callbacks: seq<Scope>)

  function LockOf(w: WhichLogger): Lock {
    match w case Root => RootLock case Named(id) => LoggerLock(id)
  }

  function Brief(l: Lock, m: Mode): Scope {
    Scope(l, m, [])
  }

  function Touches(appender: nat, n: nat): seq<Scope> {
    if n == 0 then [] else [Brief(AppenderLock(appender), Exclusive)] + Touches(appender, n - 1)
  }

  // LogAppender::log: reopen takes and releases the lock before the write takes it again.
  function OutputScopes(outputs: seq<Output>): seq<Scope> {
    if outputs == [] then []
    else Touches(outputs[0].appender, if outputs[0].reopens then 2 else 1) + OutputScopes(outputs[1..])
  }

  // getHasFormatter, and where it changes, setFormatter and setHasFormatter.
  function VisitScopes(visited: seq<Visited>): seq<Scope> {
    if visited == [] then []
    else Touches(visited[0].appender, if visited[0].changes then 3 else 1) + VisitScopes(visited[1..])
  }

  function YamlScopes(parts: seq<(WhichLogger, seq<Visited>)>): seq<Scope> {
    if parts == [] then []
    else [Scope(LockOf(parts[0].0), Exclusive, VisitScopes(parts[0].1))] + YamlScopes(parts[1..])
  }

  // The guards an operation creates, in order.
  function Scopes(op: Op): seq<Scope> {
    match op
    case LogThrough(w, outputs) => [Scope(LockOf(w), Exclusive, OutputScopes(outputs))]
    case LogByRoot(id, passes, outputs) =>
      [Scope(LoggerLock(id), Exclusive, if passes then [Scope(RootLock, Exclusive, OutputScopes(outputs))] else [])]
    case AddAppender(w, appender, inherits) =>
      [Scope(LockOf(w), Exclusive, Touches(appender, if inherits then 3 else 1))]
    case SetFormatter(w, visited) => [Scope(LockOf(w), Exclusive, VisitScopes(visited))]
    case TouchLogger(w) => [Brief(LockOf(w), Exclusive)]
    case TouchAppender(appender) => [Brief(AppenderLock(appender), Exclusive)]
    case LoggerToYaml(w, visited) => [Scope(LockOf(w), Exclusive, VisitScopes(visited))]
    case ManagerToYaml(parts) => [Scope(ManagerLock, Exclusive, YamlScopes(parts))]
    case SetVar(id, changes, callbacks) =>
      if changes then [Scope(VarLock(id), Shared, callbacks), Brief(VarLock(id), Exclusive)]
      else [Brief(VarLock(id), Shared)]
    case ReadVar(id) => [Brief(VarLock(id), Shared)]
    case ChangeListeners(id) => [Brief(VarLock(id), Exclusive)]
    case LookupBase => [Brief(RegistryLock, Shared)]
    case LookupDefault(logs, outputs) =>
      [Scope(RegistryLock, Exclusive, if logs then [Scope(RootLock, Exclusive, OutputScopes(outputs))] else [])]
    case Visit(callbacks) => [Scope(RegistryLock, Shared, callbacks)]
  }

  // Every guard created inside another one locks something of higher rank.
  predicate Ascends(o: Order, bound: int, scopes: seq<Scope>)
    decreases scopes
  {
    forall j :: 0 <= j < |scopes| ==> Rank(o, scopes[j].lock) > bound && Ascends(o, Rank(o, scopes[j].lock), scopes[j].body)
  }

  // User callbacks keep to the ranks above the lock they are called under; so a listener may
  // set variables later in the order than its own.
  predicate Respectful(o: Order, op: Op) {
    match op
    case SetVar(id, _, callbacks) => Ascends(o, Rank(o, VarLock(id)), callbacks)
    case Visit(callbacks) => Ascends(o, Rank(o, RegistryLock), callbacks)
    case _ => true
  }

  lemma {:induction false} TouchesAscend(o: Order, appender: nat, n: nat)
    ensures Ascends(o, 4 + o.top, Touches(appender, n))
  {
    if n > 0 {
      TouchesAscend(o, appender, n - 1);
    }
  }

  lemma AscendsConcat(o: Order, bound: int, ss: seq<Scope>, ts: seq<Scope>)
    requires Ascends(o, bound, ss) && Ascends(o, bound, ts)
    ensures Ascends(o, bound, ss + ts)
  {
  }

  lemma AscendsLower(o: Order, low: int, high: int, ss: seq<Scope>)
    requires low <= high && Ascends(o, high, ss)
    ensures Ascends(o, low, ss)
  {
  }

  lemma {:induction false} OutputsAscend(o: Order, outputs: seq<Output>)
    ensures Ascends(o, 4 + o.top, OutputScopes(outputs))
  {
    if outputs != [] {
      OutputsAscend(o, outputs[1..]);
      TouchesAscend(o, outputs[0].appender, if outputs[0].reopens then 2 else 1);
      AscendsConcat(o, 4 + o.top, Touches(outputs[0].appender, if outputs[0].reopens then 2 else 1), OutputScopes(outputs[1..]));
    }
  }

  lemma {:induction false} VisitsAscend(o: Order, visited: seq<Visited>)
    ensures Ascends(o, 4 + o.top, VisitScopes(visited))
  {
    if visited != [] {
      VisitsAscend(o, visited[1..]);
      TouchesAscend(o, visited[0].appender, if visited[0].changes then 3 else 1);
      AscendsConcat(o, 4 + o.top, Touches(visited[0].appender, if visited[0].changes then 3 else 1), VisitScopes(visited[1..]));
    }
  }

  lemma {:induction false} YamlAscends(o: Order, parts: seq<(WhichLogger, seq<Visited>)>)
    ensures Ascends(o, 2 + o.top, YamlScopes(parts))
  {
    if parts != [] {
      YamlAscends(o, parts[1..]);
      VisitsAscend(o, parts[0].1);
      AscendsLower(o, Rank(o, LockOf(parts[0].0)), 4 + o.top, VisitScopes(parts[0].1));
      AscendsConcat(o, 2 + o.top, [Scope(LockOf(parts[0].0), Exclusive, VisitScopes(parts[0].1))], YamlScopes(parts[1..]));
    }
  }

  // A guard whose body ascends above its own rank.
  lemma GuardAscends(o: Order, l: Lock, m: Mode, body: seq<Scope>)
    requires Ascends(o, Rank(o, l), body)
    ensures Ascends(o, -1, [Scope(l, m, body)])
  {
  }

  lemma BriefAscends(o: Order, l: Lock, m: Mode)
    ensures Ascends(o, -1, [Brief(l, m)]) && Ascends(o, Rank(o, l), [])
  {
    GuardAscends(o, l, m, []);
  }

  // A guard on a logger around something that only locks appenders.
  lemma LoggerGuardAscends(o: Order, w: WhichLogger, body: seq<Scope>)
    requires Ascends(o, 4 + o.top, body)
    ensures Ascends(o, -1, [Scope(LockOf(w), Exclusive, body)])
  {
    AscendsLower(o, Rank(o, LockOf(w)), 4 + o.top, body);
    GuardAscends(o, LockOf(w), Exclusive, body);
  }

  lemma RootGuardAscends(o: Order, l: Lock, logs: bool, outputs: seq<Output>)
    requires Rank(o, l) < 4 + o.top
    ensures Ascends(o, -1, [Scope(l, Exclusive, if logs then [Scope(RootLock, Exclusive, OutputScopes(outputs))] else [])])
  {
    hide OutputScopes;
    OutputsAscend(o, outputs);
    GuardAscends(o, l, Exclusive, if logs then [Scope(RootLock, Exclusive, OutputScopes(outputs))] else []);
  }

  lemma SettingAscends(o: Order, id: nat, callbacks: seq<Scope>)
    requires Ascends(o, Rank(o, VarLock(id)), callbacks)
    ensures Ascends(o, -1, [Scope(VarLock(id), Shared, callbacks), Brief(VarLock(id), Exclusive)])
  {
    var ss, ts := [Scope(VarLock(id), Shared, callbacks)], [Brief(VarLock(id), Exclusive)];
    hide Ascends, Rank;
    GuardAscends(o, VarLock(id), Shared, callbacks);
    BriefAscends(o, VarLock(id), Exclusive);
    AscendsConcat(o, -1, ss, ts);
    assert ss + ts == [Scope(VarLock(id), Shared, callbacks), Brief(VarLock(id), Exclusive)];
  }

  /** Every nested acquisition of every operation strictly increases the rank. */
  lemma OperationsAscend(o: Order, op: Op)
    requires Respectful(o, op)
    ensures Ascends(o, -1, Scopes(op))
  {
    hide Ascends, Touches, OutputScopes, VisitScopes, YamlScopes;
    match op
    case LogThrough(w, outputs) =>
      OutputsAscend(o, outputs);
      LoggerGuardAscends(o, w, OutputScopes(outputs));
    case LogByRoot(id, passes, outputs) => RootGuardAscends(o, LoggerLock(id), passes, outputs);
    case AddAppender(w, appender, inherits) =>
      TouchesAscend(o, appender, if inherits then 3 else 1);
      LoggerGuardAscends(o, w, Touches(appender, if inherits then 3 else 1));
    case SetFormatter(w, visited) =>
      VisitsAscend(o, visited);
      LoggerGuardAscends(o, w, VisitScopes(visited));
    case TouchLogger(w) => BriefAscends(o, LockOf(w), Exclusive);
    case TouchAppender(appender) => BriefAscends(o, AppenderLock(appender), Exclusive);
    case LoggerToYaml(w, visited) =>
      VisitsAscend(o, visited);
      LoggerGuardAscends(o, w, VisitScopes(visited));
    case ManagerToYaml(parts) =>
      YamlAscends(o, parts);
      GuardAscends(o, ManagerLock, Exclusive, YamlScopes(parts));
    case SetVar(id, changes, callbacks) =>
      SettingAscends(o, id, callbacks);
      BriefAscends(o, VarLock(id), Shared);
    case ReadVar(id) => BriefAscends(o, VarLock(id), Shared);
    case ChangeListeners(id) => BriefAscends(o, VarLock(id), Exclusive);
    case LookupBase => BriefAscends(o, RegistryLock, Shared);
    case LookupDefault(logs, outputs) => RootGuardAscends(o, RegistryLock, logs, outputs);
    case Visit(callbacks) => GuardAscends(o, RegistryLock, Shared, callbacks);
  }

  // ---------------------------------------------------------------- which locks an operation takes

  // Some guard among these, at any depth, locks l in mode m.
  predicate Takes(scopes: seq<Scope>, l: Lock, m: Mode)
    decreases scopes
  {
    exists j :: 0 <= j < |scopes| && ((scopes[j].lock == l && scopes[j].mode == m) || Takes(scopes[j].body, l, m))
  }

  predicate OutputsOn(outputs: seq<Output>, l: Lock) {
    l.AppenderLock? && exists j :: 0 <= j < |outputs| && outputs[j].appender == l.id
  }

  predicate VisitedOn(visited: seq<Visited>, l: Lock) {
    l.AppenderLock? && exists j :: 0 <= j < |visited| && visited[j].appender == l.id
  }

  // The object, named by its lock, that the operation may change or that has but one kind of lock.
  predicate WorksOn(op: Op, l: Lock) {
    match op
    case LogThrough(w, outputs) => l == LockOf(w) || OutputsOn(outputs, l)
    case LogByRoot(id, passes, outputs) => l == LoggerLock(id) || (passes && (l == RootLock || OutputsOn(outputs, l)))
    case AddAppender(w, appender, _) => l == LockOf(w) || l == AppenderLock(appender)
    case SetFormatter(w, visited) => l == LockOf(w) || VisitedOn(visited, l)
    case TouchLogger(w) => l == LockOf(w)
    case TouchAppender(appender) => l == AppenderLock(appender)
    case LoggerToYaml(w, visited) => l == LockOf(w) || VisitedOn(visited, l)
    case ManagerToYaml(parts) =>
      l == ManagerLock || exists j :: 0 <= j < |parts| && (l == LockOf(parts[j].0) || VisitedOn(parts[j].1, l))
    case SetVar(id, changes, _) => changes && l == VarLock(id)
    case ChangeListeners(id) => l == VarLock(id)
    case LookupDefault(logs, outputs) => l == RegistryLock || (logs && (l == RootLock || OutputsOn(outputs, l)))
    case _ => false
  }

  // The variable or registry the operation looks at, or calls user code about.
  predicate LooksAt(op: Op, l: Lock) {
    match op
    case SetVar(id, _, _) => l == VarLock(id)
    case ReadVar(id) => l == VarLock(id)
    case LookupBase => l == RegistryLock
    case Visit(_) => l == RegistryLock
    case _ => false
  }

  // Each logger has a lock of its own.
  lemma OwnLocks(v: WhichLogger, w: WhichLogger)
    ensures LockOf(v) == LockOf(w) <==> v == w
  {
  }

  lemma TakesConcat(ss: seq<Scope>, ts: seq<Scope>, l: Lock, m: Mode)
    ensures Takes(ss + ts, l, m) <==> Takes(ss, l, m) || Takes(ts, l, m)
  {
    var all := ss + ts;
    if j :| 0 <= j < |ss| && ((ss[j].lock == l && ss[j].mode == m) || Takes(ss[j].body, l, m)) {
      assert all[j] == ss[j];
    }
    if j :| 0 <= j < |ts| && ((ts[j].lock == l && ts[j].mode == m) || Takes(ts[j].body, l, m)) {
      assert all[|ss| + j] == ts[j];
    }
  }

  lemma TakesOne(k: Lock, n: Mode, body: seq<Scope>, l: Lock, m: Mode)
    ensures Takes([Scope(k, n, body)], l, m) <==> (k == l && n == m) || Takes(body, l, m)
    ensures Takes([], l, m) == false
  {
    var ss := [Scope(k, n, body)];
    assert ss[0] == Scope(k, n, body);
  }

  lemma {:induction false} TouchesTake(appender: nat, n: nat, l: Lock, m: Mode)
    ensures Takes(Touches(appender, n), l, m) <==> n > 0 && l == AppenderLock(appender) && m == Exclusive
  {
    if n > 0 {
      TouchesTake(appender, n - 1, l, m);
      TakesOne(AppenderLock(appender), Exclusive, [], l, m);
      TakesConcat([Brief(AppenderLock(appender), Exclusive)], Touches(appender, n - 1), l, m);
    }
  }

  lemma {:induction false} OutputsTake(outputs: seq<Output>, l: Lock, m: Mode)
    ensures Takes(OutputScopes(outputs), l, m) <==> m == Exclusive && OutputsOn(outputs, l)
  {
    hide Takes, Touches;
    if outputs == [] {
      TakesOne(l, m, [], l, m);
    } else {
      var n := if outputs[0].reopens then 2 else 1;
      OutputsTake(outputs[1..], l, m);
      TouchesTake(outputs[0].appender, n, l, m);
      TakesConcat(Touches(outputs[0].appender, n), OutputScopes(outputs[1..]), l, m);
      assert forall j :: 0 < j < |outputs| ==> outputs[j] == outputs[1..][j - 1];
    }
  }

  lemma {:induction false} VisitsTake(visited: seq<Visited>, l: Lock, m: Mode)
    ensures Takes(VisitScopes(visited), l, m) <==> m == Exclusive && VisitedOn(visited, l)
  {
    hide Takes, Touches;
    if visited == [] {
      TakesOne(l, m, [], l, m);
    } else {
      var n := if visited[0].changes then 3 else 1;
      VisitsTake(visited[1..], l, m);
      TouchesTake(visited[0].appender, n, l, m);
      TakesConcat(Touches(visited[0].appender, n), VisitScopes(visited[1..]), l, m);
      assert forall j :: 0 < j < |visited| ==> visited[j] == visited[1..][j - 1];
    }
  }

  lemma {:induction false} YamlTakes(parts: seq<(WhichLogger, seq<Visited>)>, l: Lock, m: Mode)
    ensures Takes(YamlScopes(parts), l, m) <==>
      m == Exclusive && exists j :: 0 <= j < |parts| && (l == LockOf(parts[j].0) || VisitedOn(parts[j].1, l))
  {
    hide Takes, VisitScopes, VisitedOn;
    if parts == [] {
      TakesOne(l, m, [], l, m);
    } else {
      YamlTakes(parts[1..], l, m);
      VisitsTake(parts[0].1, l, m);
      TakesOne(LockOf(parts[0].0), Exclusive, VisitScopes(parts[0].1), l, m);
      TakesConcat([Scope(LockOf(parts[0].0), Exclusive, VisitScopes(parts[0].1))], YamlScopes(parts[1..]), l, m);
      assert forall j :: 0 < j < |parts| ==> parts[j] == parts[1..][j - 1];
    }
  }

  // What the user's code locks when the operation calls it.
  predicate CallbacksTake(op: Op, l: Lock, m: Mode) {
    match op
    case SetVar(_, changes, callbacks) => changes && Takes(callbacks, l, m)
    case Visit(callbacks) => Takes(callbacks, l, m)
    case _ => false
  }

  /** Every operation locks exactly the objects it works on, exclusively, and those it only
      looks at or calls user code about, shared; the rest is what the callbacks lock. */
  lemma OperationsTake(op: Op, l: Lock, m: Mode)
    ensures Takes(Scopes(op), l, m) <==>
      (if m == Exclusive then WorksOn(op, l) else LooksAt(op, l)) || CallbacksTake(op, l, m)
  {
    hide Takes, Touches, OutputScopes, VisitScopes, YamlScopes, OutputsOn, VisitedOn;
    TakesOne(l, m, [], l, m);
    match op
    case LogThrough(w, outputs) =>
      OutputsTake(outputs, l, m);
      TakesOne(LockOf(w), Exclusive, OutputScopes(outputs), l, m);
    case LogByRoot(id, passes, outputs) =>
      OutputsTake(outputs, l, m);
      TakesOne(RootLock, Exclusive, OutputScopes(outputs), l, m);
      TakesOne(LoggerLock(id), Exclusive, if passes then [Scope(RootLock, Exclusive, OutputScopes(outputs))] else [], l, m);
    case AddAppender(w, appender, inherits) =>
      TouchesTake(appender, if inherits then 3 else 1, l, m);
      TakesOne(LockOf(w), Exclusive, Touches(appender, if inherits then 3 else 1), l, m);
    case SetFormatter(w, visited) =>
      VisitsTake(visited, l, m);
      TakesOne(LockOf(w), Exclusive, VisitScopes(visited), l, m);
    case TouchLogger(w) => TakesOne(LockOf(w), Exclusive, [], l, m);
    case TouchAppender(appender) => TakesOne(AppenderLock(appender), Exclusive, [], l, m);
    case LoggerToYaml(w, visited) =>
      VisitsTake(visited, l, m);
      TakesOne(LockOf(w), Exclusive, VisitScopes(visited), l, m);
    case ManagerToYaml(parts) =>
      YamlTakes(parts, l, m);
      TakesOne(ManagerLock, Exclusive, YamlScopes(parts), l, m);
    case SetVar(id, changes, callbacks) =>
      TakesOne(VarLock(id), Shared, callbacks, l, m);
      TakesOne(VarLock(id), Exclusive, [], l, m);
      TakesOne(VarLock(id), Shared, [], l, m);
      TakesConcat([Scope(VarLock(id), Shared, callbacks)], [Brief(VarLock(id), Exclusive)], l, m);
      assert [Scope(VarLock(id), Shared, callbacks)] + [Brief(VarLock(id), Exclusive)]
        == [Scope(VarLock(id), Shared, callbacks), Brief(VarLock(id), Exclusive)];
    case ReadVar(id) => TakesOne(VarLock(id), Shared, [], l, m);
    case ChangeListeners(id) => TakesOne(VarLock(id), Exclusive, [], l, m);
    case LookupBase => TakesOne(RegistryLock, Shared, [], l, m);
    case LookupDefault(logs, outputs) =>
      OutputsTake(outputs, l, m);
      TakesOne(RootLock, Exclusive, OutputScopes(outputs), l, m);
      TakesOne(RegistryLock, Exclusive, if logs then [Scope(RootLock, Exclusive, OutputScopes(outputs))] else [], l, m);
    case Visit(callbacks) => TakesOne(RegistryLock, Shared, callbacks, l, m);
  }

  // Operations on loggers and appenders, such as the reconciling listener is made of.
  predicate OnLoggers(op: Op) {
    op.LogThrough? || op.LogByRoot? || op.AddAppender? || op.SetFormatter? || op.TouchLogger? || op.TouchAppender?
  }

  function AllScopes(ops: seq<Op>): seq<Scope> {
    if ops == [] then [] else Scopes(ops[0]) + AllScopes(ops[1..])
  }

  lemma LoggerOpAscends(o: Order, op: Op)
    requires OnLoggers(op)
    ensures Ascends(o, 1 + o.top, Scopes(op))
  {
    OperationsAscend(o, op);
    assert forall j :: 0 <= j < |Scopes(op)| ==> Rank(o, Scopes(op)[j].lock) > 1 + o.top;
  }

  /** A listener made of logger operations, like the one reconciling the loggers, may be
      called under the variable's read lock. */
  lemma {:induction false} LoggerCallbacksRespectful(o: Order, id: nat, changes: bool, ops: seq<Op>)
    requires forall op :: op in ops ==> OnLoggers(op)
    ensures Respectful(o, SetVar(id, changes, AllScopes(ops)))
  {
    if ops != [] {
      LoggerOpAscends(o, ops[0]);
      LoggerCallbacksRespectful(o, id, changes, ops[1..]);
      AscendsLower(o, Rank(o, VarLock(id)), 1 + o.top, Scopes(ops[0]));
      AscendsConcat(o, Rank(o, VarLock(id)), Scopes(ops[0]), AllScopes(ops[1..]));
    }
  }

  // ---------------------------------------------------------------- threads

  datatype Act = Acquire(lock: Lock, mode: Mode) | Release  // Release unlocks the newest guard

  datatype Held = Held(lock: Lock, mode: Mode)

  datatype Thread = Thread(held: seq<Held>, todo: seq<Act>)

  type System = seq<Thread>

  function Flatten(scopes: seq<Scope>): seq<Act>
    decreases scopes
  {
    if scopes == [] then []
    else [Acquire(scopes[0].lock, scopes[0].mode)] + Flatten(scopes[0].body) + [Release] + Flatten(scopes[1..])
  }

  // Taken from the locks held now, the steps still to do ascend, pair up, and end with nothing held.
  predicate Disciplined(o: Order, held: seq<Held>, todo: seq<Act>)
    decreases todo
  {
    if todo == [] then held == []
    else match todo[0]
      case Acquire(l, m) =>
        (forall j :: 0 <= j < |held| ==> Rank(o, held[j].lock) < Rank(o, l)) && Disciplined(o, held + [Held(l, m)], todo[1..])
      case Release => held != [] && Disciplined(o, held[..|held| - 1], todo[1..])
  }

  lemma {:induction false} FlattenDisciplined(o: Order, held: seq<Held>, bound: int, scopes: seq<Scope>, rest: seq<Act>)
    requires Ascends(o, bound, scopes) && Disciplined(o, held, rest)
    requires forall j :: 0 <= j < |held| ==> Rank(o, held[j].lock) <= bound
    ensures Disciplined(o, held, Flatten(scopes) + rest)
    decreases scopes
  {
    hide Disciplined, Flatten, Rank;
    if scopes == [] {
      FlattenNone(rest);
    } else {
      var s := scopes[0];
      var tail := Flatten(scopes[1..]) + rest;
      FlattenDisciplined(o, held, bound, scopes[1..], rest);
      var inner := held + [Held(s.lock, s.mode)];
      ReleaseDisciplined(o, held, Held(s.lock, s.mode), tail);
      FlattenDisciplined(o, inner, Rank(o, s.lock), s.body, [Release] + tail);
      AcquireDisciplined(o, held, s.lock, s.mode, Flatten(s.body) + ([Release] + tail));
      FlattenHead(scopes, rest);
    }
  }

  lemma FlattenNone(rest: seq<Act>)
    ensures Flatten([]) + rest == rest
  {
  }

  lemma FlattenHead(scopes: seq<Scope>, rest: seq<Act>)
    requires scopes != []
    ensures Flatten(scopes) + rest
      == [Acquire(scopes[0].lock, scopes[0].mode)] + (Flatten(scopes[0].body) + ([Release] + (Flatten(scopes[1..]) + rest)))
  {
  }

  lemma ReleaseDisciplined(o: Order, held: seq<Held>, h: Held, tail: seq<Act>)
    requires Disciplined(o, held, tail)
    ensures Disciplined(o, held + [h], [Release] + tail)
  {
    assert (held + [h])[..|held|] == held && ([Release] + tail)[1..] == tail;
  }

  lemma AcquireDisciplined(o: Order, held: seq<Held>, l: Lock, m: Mode, tail: seq<Act>)
    requires Disciplined(o, held + [Held(l, m)], tail)
    requires forall j :: 0 <= j < |held| ==> Rank(o, held[j].lock) < Rank(o, l)
    ensures Disciplined(o, held, [Acquire(l, m)] + tail)
  {
    assert ([Acquire(l, m)] + tail)[1..] == tail;
  }

  predicate Holds(t: Thread, l: Lock) {
    exists j :: 0 <= j < |t.held| && t.held[j].lock == l
  }

  predicate HoldsExclusively(t: Thread, l: Lock) {
    Held(l, Exclusive) in t.held
  }

  predicate WantsExclusively(t: Thread, l: Lock) {
    t.todo != [] && t.todo[0] == Acquire(l, Exclusive)
  }

  // Whether a reader also waits for waiting writers; a read-write lock may follow either policy.
  datatype Policy = WritersFirst | ReadersPass

  /** Whether thread t can take its next step.  A thread that holds a lock blocks itself
      when it takes it again, unless it only reads both times. */
  predicate Enabled(p: Policy, s: System, t: nat)
    requires t < |s|
  {
    s[t].todo != [] &&
    match s[t].todo[0]
    case Release => true
    case Acquire(l, Exclusive) => forall u :: 0 <= u < |s| ==> !Holds(s[u], l)
    case Acquire(l, Shared) => forall u :: 0 <= u < |s| ==> !HoldsExclusively(s[u], l) && (p.WritersFirst? && u != t ==> !WantsExclusively(s[u], l))
  }

  // Where the policies differ: a reader arriving while a writer waits for another reader.
  lemma PoliciesDiffer(l: Lock)
    ensures var s := [Thread([Held(l, Shared)], [Release]), Thread([], [Acquire(l, Exclusive)]), Thread([], [Acquire(l, Shared)])];
      Enabled(ReadersPass, s, 2) && !Enabled(WritersFirst, s, 2) && forall p: Policy :: Enabled(p, s, 0) && !Enabled(p, s, 1)
  {
    var s := [Thread([Held(l, Shared)], [Release]), Thread([], [Acquire(l, Exclusive)]), Thread([], [Acquire(l, Shared)])];
    assert WantsExclusively(s[1], l) && s[0].held[0].lock == l;
  }

  function Next(t: Thread): Thread
    requires t.todo != [] && (t.todo[0].Release? ==> t.held != [])
  {
    match t.todo[0]
    case Acquire(l, m) => Thread(t.held + [Held(l, m)], t.todo[1..])
    case Release => Thread(t.held[..|t.held| - 1], t.todo[1..])
  }

  ghost predicate Exclusion(s: System) {
    forall t, u, l :: 0 <= t < |s| && 0 <= u < |s| && t != u && HoldsExclusively(s[t], l) ==> !Holds(s[u], l)
  }

  ghost predicate Invariant(o: Order, s: System) {
    Exclusion(s) && forall t :: 0 <= t < |s| ==> Disciplined(o, s[t].held, s[t].todo)
  }

  predicate Finished(s: System) {
    forall t :: 0 <= t < |s| ==> s[t].todo == []
  }

  // ---------------------------------------------------------------- progress

  lemma {:induction false} HighestWish(o: Order, s: System, n: nat) returns (t: nat)
    requires 0 < n <= |s| && forall u :: 0 <= u < n && s[u].todo != [] ==> s[u].todo[0].Acquire?
    requires exists u :: 0 <= u < n && s[u].todo != []
    ensures t < n && s[t].todo != []
    ensures forall u :: 0 <= u < n && s[u].todo != [] ==> Rank(o, s[u].todo[0].lock) <= Rank(o, s[t].todo[0].lock)
  {
    if n == 1 || forall u :: 0 <= u < n - 1 ==> s[u].todo == [] {
      t := n - 1;
    } else {
      t := HighestWish(o, s, n - 1);
      if s[n - 1].todo != [] && Rank(o, s[n - 1].todo[0].lock) > Rank(o, s[t].todo[0].lock) {
        t := n - 1;
      }
    }
  }

  /** Deadlock freedom: as long as some thread is unfinished, some thread can step. */
  lemma Progress(o: Order, p: Policy, s: System) returns (t: nat)
    requires Invariant(o, s) && !Finished(s)
    ensures t < |s| && Enabled(p, s, t)
  {
    if u :| 0 <= u < |s| && s[u].todo != [] && s[u].todo[0].Release? {
      t := u;
    } else {
      t := HighestWish(o, s, |s|);
      var l := s[t].todo[0].lock;
      forall u | 0 <= u < |s| ensures !Holds(s[u], l) {
        NotHeld(o, s[u], l);
      }
      if w :| 0 <= w < |s| && WantsExclusively(s[w], l) {
        t := w;
      } else {
        assert forall u :: 0 <= u < |s| ==> HoldsExclusively(s[u], l) ==> Holds(s[u], l);
      }
    }
  }

  // A thread that wants nothing above l does not hold l.
  lemma NotHeld(o: Order, t: Thread, l: Lock)
    requires Disciplined(o, t.held, t.todo)
    requires t.todo != [] ==> t.todo[0].Acquire? && Rank(o, t.todo[0].lock) <= Rank(o, l)
    ensures !Holds(t, l)
  {
  }

  // ---------------------------------------------------------------- runs

  // The threads in the order they step.
  predicate CanRun(p: Policy, s: System, schedule: seq<nat>)
    decreases schedule
  {
    schedule == [] ||
    (schedule[0] < |s| && Enabled(p, s, schedule[0]) &&
     (s[schedule[0]].todo[0].Release? ==> s[schedule[0]].held != []) &&
     CanRun(p, s[schedule[0] := Next(s[schedule[0]])], schedule[1..]))
  }

  function After(p: Policy, s: System, schedule: seq<nat>): System
    requires CanRun(p, s, schedule)
    decreases schedule
  {
    if schedule == [] then s else After(p, s[schedule[0] := Next(s[schedule[0]])], schedule[1..])
  }

  function StepsLeft(s: System): nat {
    if s == [] then 0 else |s[0].todo| + StepsLeft(s[1..])
  }

  lemma StepKeepsInvariant(o: Order, p: Policy, s: System, t: nat)
    requires Invariant(o, s) && t < |s| && Enabled(p, s, t)
    ensures s[t].todo[0].Release? ==> s[t].held != []
    ensures Invariant(o, s[t := Next(s[t])])
  {
    var next := Next(s[t]);
    var s' := s[t := next];
    assert forall h :: h in next.held ==> h in s[t].held || (s[t].todo[0].Acquire? && h == Held(s[t].todo[0].lock, s[t].todo[0].mode));
    forall u, l | 0 <= u < |s| && u != t
      ensures HoldsExclusively(next, l) ==> !Holds(s[u], l)
      ensures HoldsExclusively(s[u], l) ==> !Holds(next, l)
    {
      ExclusionStep(o, p, s, t, u, l);
    }
  }

  lemma ExclusionStep(o: Order, p: Policy, s: System, t: nat, u: nat, l: Lock)
    requires Invariant(o, s) && t < |s| && Enabled(p, s, t) && u < |s| && u != t
    ensures HoldsExclusively(Next(s[t]), l) ==> !Holds(s[u], l)
    ensures HoldsExclusively(s[u], l) ==> !Holds(Next(s[t]), l)
  {
    var next := Next(s[t]);
    if s[t].todo[0].Acquire? {
      assert next.held == s[t].held + [Held(s[t].todo[0].lock, s[t].todo[0].mode)];
      assert Holds(next, l) ==> Holds(s[t], l) || l == s[t].todo[0].lock;
      assert HoldsExclusively(next, l) ==> HoldsExclusively(s[t], l) || (l == s[t].todo[0].lock && s[t].todo[0].mode == Exclusive);
      assert HoldsExclusively(s[u], l) ==> Holds(s[u], l);
    } else {
      assert Holds(next, l) ==> Holds(s[t], l);
      assert HoldsExclusively(next, l) ==> HoldsExclusively(s[t], l);
    }
  }

  lemma {:induction false} StepsLeftUpdate(s: System, t: nat, next: Thread)
    requires t < |s|
    ensures StepsLeft(s[t := next]) == StepsLeft(s) - |s[t].todo| + |next.todo|
  {
    if t > 0 {
      assert s[t := next][1..] == s[1..][t - 1 := next];
      StepsLeftUpdate(s[1..], t - 1, next);
    } else {
      assert s[t := next][1..] == s[1..];
    }
  }

  /** Over every run the invariant holds, each step is one step less to do, and unless all
      threads have finished the run can go on: no schedule deadlocks, and all end. */
  lemma {:induction false} RunsNeverDeadlock(o: Order, p: Policy, s: System, schedule: seq<nat>)
    requires Invariant(o, s) && CanRun(p, s, schedule)
    ensures var end := After(p, s, schedule);
      Invariant(o, end) && |schedule| + StepsLeft(end) == StepsLeft(s) &&
      (Finished(end) || exists t :: 0 <= t < |end| && Enabled(p, end, t))
    decreases schedule
  {
    if schedule == [] {
      if !Finished(s) {
        var t := Progress(o, p, s);
      }
    } else {
      var t := schedule[0];
      StepKeepsInvariant(o, p, s, t);
      StepsLeftUpdate(s, t, Next(s[t]));
      RunsNeverDeadlock(o, p, s[t := Next(s[t])], schedule[1..]);
    }
  }

  // Threads that have not started, each with a list of operations.
  function Start(programs: seq<seq<Op>>): System {
    seq(|programs|, t requires 0 <= t < |programs| => Thread([], Flatten(AllScopes(programs[t]))))
  }

  lemma {:induction false} ProgramAscends(o: Order, ops: seq<Op>)
    requires forall op :: op in ops ==> Respectful(o, op)
    ensures Ascends(o, -1, AllScopes(ops))
  {
    if ops != [] {
      OperationsAscend(o, ops[0]);
      ProgramAscends(o, ops[1..]);
      AscendsConcat(o, -1, Scopes(ops[0]), AllScopes(ops[1..]));
    }
  }

  /** The main result: any number of threads, each running any operations in any order,
      never deadlock, exclude each other, and finish after exactly as many steps as the
      operations have. */
  lemma OperationsNeverDeadlock(o: Order, p: Policy, programs: seq<seq<Op>>, schedule: seq<nat>)
    requires forall t :: 0 <= t < |programs| ==> forall op :: op in programs[t] ==> Respectful(o, op)
    requires CanRun(p, Start(programs), schedule)
    ensures var end := After(p, Start(programs), schedule);
      Exclusion(end) && (Finished(end) <==> |schedule| == StepsLeft(Start(programs))) &&
      (Finished(end) || exists t :: 0 <= t < |end| && Enabled(p, end, t))
  {
    var s := Start(programs);
    forall t | 0 <= t < |s| ensures Disciplined(o, s[t].held, s[t].todo) {
      ProgramAscends(o, programs[t]);
      FlattenDisciplined(o, [], -1, AllScopes(programs[t]), []);
      assert Flatten(AllScopes(programs[t])) + [] == s[t].todo;
    }
    RunsNeverDeadlock(o, p, s, schedule);
    FinishedIff(After(p, s, schedule));
  }

  lemma {:induction false} FinishedIff(s: System)
    ensures Finished(s) <==> StepsLeft(s) == 0
  {
    if s != [] {
      FinishedIff(s[1..]);
      assert forall t :: 0 < t < |s| ==> s[t] == s[1..][t - 1];
    }
  }

  // A setValue of variable i whose listener sets variable j.
  function Setting(i: nat, j: nat): Op {
    SetVar(i, true, Scopes(SetVar(j, true, [])))
  }

  lemma FlattenSetting(i: nat, j: nat)
    ensures var todo := Flatten(AllScopes([Setting(i, j)]));
      |todo| > 4 && todo[..4] == [Acquire(VarLock(i), Shared), Acquire(VarLock(j), Shared), Release, Acquire(VarLock(j), Exclusive)]
  {
    var inner := [Brief(VarLock(j), Shared), Brief(VarLock(j), Exclusive)];
    assert inner[1..] == [Brief(VarLock(j), Exclusive)];
    assert Flatten(inner[1..])[0] == Acquire(VarLock(j), Exclusive);
    assert Flatten(inner) == [Acquire(VarLock(j), Shared)] + [] + [Release] + Flatten(inner[1..]);
    var ss := AllScopes([Setting(i, j)]);
    assert ss == Scopes(Setting(i, j)) + [] && ss[0] == Scope(VarLock(i), Shared, inner);
    assert Flatten(ss) == [Acquire(VarLock(i), Shared)] + Flatten(inner) + [Release] + Flatten(ss[1..]);
  }

  lemma NoOrder(o: Order, i: nat, j: nat)
    ensures Respectful(o, Setting(i, j)) ==> Rank(o, VarLock(i)) < Rank(o, VarLock(j))
    ensures !(Respectful(o, Setting(i, j)) && Respectful(o, Setting(j, i)))
  {
    assert Respectful(o, Setting(i, j)) ==> Rank(o, Scopes(SetVar(j, true, []))[0].lock) > Rank(o, VarLock(i));
    assert Respectful(o, Setting(j, i)) ==> Rank(o, Scopes(SetVar(i, true, []))[0].lock) > Rank(o, VarLock(j));
  }

  // A listener may set a variable that comes later in the order.
  lemma LaterVariableAllowed(i: nat, j: nat)
    requires i < j
    ensures Respectful(Order(j + 1, id => id), Setting(i, j))
  {
  }

  /** Without an order among the variables it can go wrong.  Two threads setting two
      variables whose listeners set each other's variable, which no order allows, reach a
      state where neither can ever move again. */
  lemma MutualListenersDeadlock(p: Policy)
    ensures forall o :: !(Respectful(o, Setting(0, 1)) && Respectful(o, Setting(1, 0)))
    ensures var s, run := Start([[Setting(0, 1)], [Setting(1, 0)]]), [0, 1, 0, 0, 1, 1];
      CanRun(p, s, run) && !Finished(After(p, s, run)) && forall t :: 0 <= t < 2 ==> !Enabled(p, After(p, s, run), t)
  {
    forall o ensures !(Respectful(o, Setting(0, 1)) && Respectful(o, Setting(1, 0))) {
      NoOrder(o, 0, 1);
    }
    hide Respectful;
    var s := Start([[Setting(0, 1)], [Setting(1, 0)]]);
    FlattenSetting(0, 1);
    FlattenSetting(1, 0);
    hide Flatten, AllScopes, Setting;
    assert s[0].todo[0..] == s[0].todo && s[1].todo[0..] == s[1].todo;
    Standoff(p, [], s[0].todo, [], s[1].todo);
    assert s == [Thread([], s[0].todo), Thread([], s[1].todo)];
  }

  // Thread t of two takes a step and the run goes on from there.
  lemma RunStep(p: Policy, s: System, t: nat, next: System, run: seq<nat>)
    requires |s| == 2 && t < 2 && Enabled(p, s, t) && (s[t].todo[0].Release? ==> s[t].held != [])
    requires next == s[t := Next(s[t])] && CanRun(p, next, run)
    ensures CanRun(p, s, [t] + run) && After(p, s, [t] + run) == After(p, next, run)
  {
    assert ([t] + run)[1..] == run;
  }

  // A thread about to read or about to release can go on while the other only reads and wants to read or release.
  lemma ReaderEnabled(p: Policy, s: System, t: nat)
    requires |s| == 2 && t < 2 && s[t].todo != []
    requires s[t].todo[0].Release? || s[t].todo[0].mode == Shared
    requires forall h :: h in s[t].held || h in s[1 - t].held ==> h.mode == Shared
    requires s[t].todo[0].Acquire? ==> !WantsExclusively(s[1 - t], s[t].todo[0].lock)
    ensures Enabled(p, s, t)
  {
  }

  lemma Standoff(p: Policy, h: seq<Held>, a: seq<Act>, g: seq<Held>, b: seq<Act>)
    requires h == g == [] && |a| > 4 && |b| > 4
    requires a[..4] == [Acquire(VarLock(0), Shared), Acquire(VarLock(1), Shared), Release, Acquire(VarLock(1), Exclusive)]
    requires b[..4] == [Acquire(VarLock(1), Shared), Acquire(VarLock(0), Shared), Release, Acquire(VarLock(0), Exclusive)]
    ensures var s, run := [Thread(h, a), Thread(g, b)], [0, 1, 0, 0, 1, 1];
      CanRun(p, s, run) && !Finished(After(p, s, run)) && forall t :: 0 <= t < 2 ==> !Enabled(p, After(p, s, run), t)
  {
    assert a[0] == a[..4][0] && a[1] == a[..4][1] && a[2] == a[..4][2] && a[3] == a[..4][3];
    assert b[0] == b[..4][0] && b[1] == b[..4][1] && b[2] == b[..4][2] && b[3] == b[..4][3];
    hide Enabled;
    var r0, r1 := Held(VarLock(0), Shared), Held(VarLock(1), Shared);
    var s2 := [Thread([r0], a[1..]), Thread([r1], b[1..])];
    var s4 := [Thread([r0], a[3..]), Thread([r1], b[1..])];
    var s6 := [Thread([r0], a[3..]), Thread([r1], b[3..])];
    assert CanRun(p, s6, []) && After(p, s6, []) == s6;
    hide CanRun, After;
    TwoSteps(p, [r0], a[3..], [r1], b[1..], 1, []);
    assert [1, 1] + [] == [1, 1] && [0, 0] + [1, 1] == [0, 0, 1, 1] && [0, 1] + [0, 0, 1, 1] == [0, 1, 0, 0, 1, 1];
    TwoSteps(p, [r0], a[1..], [r1], b[1..], 0, [1, 1]);
    FirstSteps(p, a, b, [0, 0, 1, 1]);
    Stuck(p, s6);
  }

  // A thread reading one variable reads the other in passing.
  lemma TwoSteps(p: Policy, h: seq<Held>, a: seq<Act>, g: seq<Held>, b: seq<Act>, t: nat, run: seq<nat>)
    requires t < 2 && |h| == |g| == 1 && h[0].mode == g[0].mode == Shared && |a| > 0 && |b| > 0
    requires a[0] != Acquire(h[0].lock, Exclusive) && b[0] != Acquire(g[0].lock, Exclusive)
    requires var todo := if t == 0 then a else b;
      |todo| > 2 && todo[1] == Release && todo[0] == Acquire((if t == 0 then g else h)[0].lock, Shared)
    requires CanRun(p, if t == 0 then [Thread(h, a[2..]), Thread(g, b)] else [Thread(h, a), Thread(g, b[2..])], run)
    ensures var s := [Thread(h, a), Thread(g, b)];
      var end := if t == 0 then [Thread(h, a[2..]), Thread(g, b)] else [Thread(h, a), Thread(g, b[2..])];
      CanRun(p, s, [t, t] + run) && After(p, s, [t, t] + run) == After(p, end, run)
  {
    var s := [Thread(h, a), Thread(g, b)];
    var end := if t == 0 then [Thread(h, a[2..]), Thread(g, b)] else [Thread(h, a), Thread(g, b[2..])];
    var mid := s[t := Next(s[t])];
    ReaderEnabled(p, s, t);
    ReaderEnabled(p, mid, t);
    hide Enabled;
    assert mid[t].held[..1] == s[t].held && mid[t].todo[1..] == s[t].todo[2..];
    RunStep(p, mid, t, end, run);
    RunStep(p, s, t, mid, [t] + run);
    assert [t] + ([t] + run) == [t, t] + run;
  }

  lemma FirstSteps(p: Policy, a: seq<Act>, b: seq<Act>, run: seq<nat>)
    requires |a| > 1 && |b| > 1 && a[0] == Acquire(VarLock(0), Shared) && b[0] == Acquire(VarLock(1), Shared)
    requires a[1] == Acquire(VarLock(1), Shared)
    requires CanRun(p, [Thread([Held(VarLock(0), Shared)], a[1..]), Thread([Held(VarLock(1), Shared)], b[1..])], run)
    ensures var s, end := [Thread([], a), Thread([], b)], [Thread([Held(VarLock(0), Shared)], a[1..]), Thread([Held(VarLock(1), Shared)], b[1..])];
      CanRun(p, s, [0, 1] + run) && After(p, s, [0, 1] + run) == After(p, end, run)
  {
    var s, end := [Thread([], a), Thread([], b)], [Thread([Held(VarLock(0), Shared)], a[1..]), Thread([Held(VarLock(1), Shared)], b[1..])];
    var mid := [end[0], s[1]];
    ReaderEnabled(p, s, 0);
    ReaderEnabled(p, mid, 1);
    hide Enabled;
    assert [] + [Held(VarLock(0), Shared)] == [Held(VarLock(0), Shared)] && [] + [Held(VarLock(1), Shared)] == [Held(VarLock(1), Shared)];
    RunStep(p, mid, 1, end, run);
    RunStep(p, s, 0, mid, [1] + run);
    assert [0] + ([1] + run) == [0, 1] + run;
  }

  // Each holds for reading what the other wants to write.
  lemma Stuck(p: Policy, s: System)
    requires |s| == 2 && s[0].held == [Held(VarLock(0), Shared)] && s[1].held == [Held(VarLock(1), Shared)]
    requires s[0].todo != [] && s[0].todo[0] == Acquire(VarLock(1), Exclusive)
    requires s[1].todo != [] && s[1].todo[0] == Acquire(VarLock(0), Exclusive)
    ensures !Finished(s) && forall t :: 0 <= t < 2 ==> !Enabled(p, s, t)
  {
    assert s[0].held[0].lock == VarLock(0) && s[1].held[0].lock == VarLock(1);
    assert Holds(s[0], VarLock(0)) && Holds(s[1], VarLock(1));
  }

  /** A listener that sets its own variable blocks itself: it waits for the write lock
      under the read lock its own call holds. */
  lemma OwnListenerDeadlocks(p: Policy)
    ensures var s, run := Start([[Setting(0, 0)]]), [0, 0, 0];
      CanRun(p, s, run) && !Finished(After(p, s, run)) && !Enabled(p, After(p, s, run), 0)
  {
    var s := Start([[Setting(0, 0)]]);
    FlattenSetting(0, 0);
    assert s == [Thread([], s[0].todo)];
    hide Flatten, AllScopes, Setting, CanRun, After, Enabled, Finished;
    OwnStandoff(p, s[0].todo);
  }

  lemma OwnStandoff(p: Policy, todo: seq<Act>)
    requires |todo| > 4
    requires todo[..4] == [Acquire(VarLock(0), Shared), Acquire(VarLock(0), Shared), Release, Acquire(VarLock(0), Exclusive)]
    ensures var s, run := [Thread([], todo)], [0, 0, 0];
      CanRun(p, s, run) && !Finished(After(p, s, run)) && !Enabled(p, After(p, s, run), 0)
  {
    assert todo[0] == todo[..4][0] && todo[1] == todo[..4][1] && todo[2] == todo[..4][2] && todo[3] == todo[..4][3];
    var r := Held(VarLock(0), Shared);
    var s0, s1 := [Thread([], todo)], [Thread([r], todo[1..])];
    var s2, s3 := [Thread([r, r], todo[2..])], [Thread([r], todo[3..])];
    assert s3[0].held[0].lock == VarLock(0) && Holds(s3[0], VarLock(0));
    assert !Finished(s3) && !Enabled(p, s3, 0);
    assert CanRun(p, s3, []) && After(p, s3, []) == s3;
    hide CanRun, After, Enabled, Finished, Holds;
    assert [] + [r] == [r] && [r] + [r] == [r, r] && [r, r][..1] == [r];
    AloneStep(p, s2, s3, []);
    AloneStep(p, s1, s2, [0]);
    AloneStep(p, s0, s1, [0, 0]);
    assert [0] + [] == [0] && [0] + [0] == [0, 0] && [0] + [0, 0] == [0, 0, 0];
  }

  // The only thread takes a step that no exclusive hold of its own prevents.
  lemma AloneStep(p: Policy, s: System, next: System, run: seq<nat>)
    requires |s| == 1 && s[0].todo != [] && (s[0].todo[0].Release? || s[0].todo[0].mode == Shared)
    requires forall h :: h in s[0].held ==> h.mode == Shared
    requires (s[0].todo[0].Release? ==> s[0].held != []) && next == s[0 := Next(s[0])] && CanRun(p, next, run)
    ensures CanRun(p, s, [0] + run) && After(p, s, [0] + run) == After(p, next, run)
  {
    assert ([0] + run)[1..] == run;
  }
}
