/** A run in which two threads' calls of the reconciling listener mix. */
module MixedCalls {
  import opened Logging
  import opened LogConfig
  import opened Reconciling
  import opened SetValueRuns
  import opened LoggerSteps
  import opened Announcements
  import opened LogsRuns
  import Compiler

  lemma MoveOne(r: nat, s: Logs, t: nat, m: LogsMove, run: seq<(nat, LogsMove)>)
    requires CanMove(r, s, t, m) && CanMoves(r, DoMove(r, s, t, m), run)
    ensures CanMoves(r, s, [(t, m)] + run) && Moves(r, s, [(t, m)] + run) == Moves(r, DoMove(r, s, t, m), run)
  {
    assert ([(t, m)] + run)[1..] == run;
  }

  // A state of two threads and one listener, for the run below.
  function Pair(id: nat, val: DefineSet, p: Pc<DefineSet>, q: Pc<DefineSet>, h: History, views: map<string, LoggerView>,
                mine: seq<LoggerStep>, yours: seq<LoggerStep>, done: seq<(nat, LoggerStep)>): Logs {
    Logs(Two(id, val, p, q, h), views, [mine, yours], done)
  }

  // From the start to both threads being inside the listener.
  lemma BothCall(id: nat, v: DefineSet, w: DefineSet, run: seq<(nat, LogsMove)>) returns (whole: seq<(nat, LogsMove)>)
    requires v != NOTHING && w != NOTHING
    requires CanMoves(id, BothInside(id, v, w), run)
    ensures var s := Begin(Origin(NOTHING, [id], id), map[], 2);
      CanMoves(id, s, whole) && Moves(id, s, whole) == Moves(id, BothInside(id, v, w), run)
  {
    hide Script, CanMoves, Moves;
    var h1: History := [Began(0, v)];
    var h2: History := h1 + [Began(1, w)];
    var h3: History := h2 + [Told(0, id, NOTHING, v)];
    var s0 := Pair(id, NOTHING, Idle, Idle, [], map[], [], [], []);
    assert Begin(Origin(NOTHING, [id], id), map[], 2) == s0;
    var s1 := Pair(id, NOTHING, Compare(v), Idle, h1, map[], [], [], []);
    var s2 := Pair(id, NOTHING, Compare(v), Compare(w), h2, map[], [], [], []);
    var s3 := Pair(id, NOTHING, Notify(v, 0), Compare(w), h2, map[], [], [], []);
    var s4 := Pair(id, NOTHING, Notify(v, 0), Notify(w, 0), h2, map[], [], [], []);
    var s5 := Pair(id, NOTHING, InCall(v, 0, id), Notify(w, 0), h3, map[], Script(NOTHING, v), [], []);
    assert [] + [Began(0, v)] == h1;
    assert DoMove(id, s0, 0, Var(BeginSet(v))) == s1;
    assert DoMove(id, s1, 1, Var(BeginSet(w))) == s2;
    assert DoMove(id, s2, 0, Var(Check)) == s3;
    assert DoMove(id, s3, 1, Var(Check)) == s4;
    assert DoMove(id, s4, 0, Var(Call)) == s5;
    assert DoMove(id, s5, 1, Var(Call)) == BothInside(id, v, w);
    whole := [(1, Var(Call))] + run;
    MoveOne(id, s5, 1, Var(Call), run);
    MoveOne(id, s4, 0, Var(Call), whole);
    whole := [(0, Var(Call))] + whole;
    MoveOne(id, s3, 1, Var(Check), whole);
    whole := [(1, Var(Check))] + whole;
    MoveOne(id, s2, 0, Var(Check), whole);
    whole := [(0, Var(Check))] + whole;
    MoveOne(id, s1, 1, Var(BeginSet(w)), whole);
    whole := [(1, Var(BeginSet(w)))] + whole;
    MoveOne(id, s0, 0, Var(BeginSet(v)), whole);
    whole := [(0, Var(BeginSet(v)))] + whole;
  }

  function BothInside(id: nat, v: DefineSet, w: DefineSet): Logs {
    Pair(id, NOTHING, InCall(v, 0, id), InCall(w, 0, id),
         [Began(0, v)] + [Began(1, w)] + [Told(0, id, NOTHING, v)] + [Told(1, id, NOTHING, w)],
         map[], Script(NOTHING, v), Script(NOTHING, w), [])
  }

  // A definition with no formatter text and one appender.
  function OneAppender(name: string, level: Compiler.Level, a: LogAppenderDefine): LogDefine {
    LogDefine(name, level, "", [a])
  }

  lemma OneScript(name: string, level: Compiler.Level, a: LogAppenderDefine)
    ensures Script(NOTHING, Only(OneAppender(name, level, a))) ==
      [LoggerStep(name, SetLevel(level)), LoggerStep(name, LoggerOp.Clear), LoggerStep(name, LoggerOp.Add(a))]
  {
    var d := OneAppender(name, level, a);
    assert [a][1..] == [] && Adds([a]) == [LoggerOp.Add(a)] + Adds([]);
    var ops := [SetLevel(level), LoggerOp.Clear, LoggerOp.Add(a)];
    assert ConfigureOps(d) == ops;
    assert ops[1..] == [LoggerOp.Clear, LoggerOp.Add(a)] && ops[1..][1..] == [LoggerOp.Add(a)] && ops[1..][1..][1..] == [];
    assert Named(name, [LoggerOp.Add(a)]) == [LoggerStep(name, LoggerOp.Add(a))];
    assert Named(name, [LoggerOp.Clear, LoggerOp.Add(a)]) == [LoggerStep(name, LoggerOp.Clear), LoggerStep(name, LoggerOp.Add(a))];
    assert Named(name, ops) == [LoggerStep(name, SetLevel(level)), LoggerStep(name, LoggerOp.Clear), LoggerStep(name, LoggerOp.Add(a))];
    hide ConfigureOps, Named;
    assert Only(d)[1..] == [];
    assert Updates(NOTHING, Only(d)) == Named(name, ConfigureOps(d)) + Updates(NOTHING, []);
    assert Drops(Only(d), NOTHING) == [] && Updates(NOTHING, []) == [];
  }

  // What the two threads' operations leave when taken in turns.
  function MixedView(level: Compiler.Level, a: LogAppenderDefine, b: LogAppenderDefine): LoggerView {
    LoggerView(level, DEFAULT_PATTERN, [AppenderShape(a, DEFAULT_PATTERN), AppenderShape(b, DEFAULT_PATTERN)])
  }

  lemma MixedSteps(name: string, l: Compiler.Level, m: Compiler.Level, a: LogAppenderDefine, b: LogAppenderDefine)
    ensures var vs := Step(Step(map[], LoggerStep(name, SetLevel(l))), LoggerStep(name, SetLevel(m)));
      var ws := Step(Step(vs, LoggerStep(name, LoggerOp.Clear)), LoggerStep(name, LoggerOp.Clear));
      Step(Step(ws, LoggerStep(name, LoggerOp.Add(a))), LoggerStep(name, LoggerOp.Add(b))) == map[name := MixedView(m, a, b)]
  {
    hide AppenderShape;
    var v := DEFAULT_VIEW;
    var x := v.(level := m, appenders := []);
    assert Perform(Perform(x, LoggerOp.Add(a)), LoggerOp.Add(b)) == MixedView(m, a, b);
  }

  // Both threads inside the listener take turns until neither has anything left to do.
  lemma TurnsTaken(id: nat, s: Logs, t0: seq<LoggerStep>, t1: seq<LoggerStep>, run: seq<(nat, LogsMove)>)
    returns (whole: seq<(nat, LogsMove)>)
    requires |t0| == |t1| == 3 && s.todo == [t0, t1]
    requires CanMoves(id, Mixed(s, t0, t1), run)
    ensures CanMoves(id, s, whole) && Moves(id, s, whole) == Moves(id, Mixed(s, t0, t1), run)
  {
    hide Step, CanMoves, Moves;
    assert t0[1..][1..] == t0[2..] && t1[1..][1..] == t1[2..] && t0[2..][1..] == [] && t1[2..][1..] == [];
    var s1 := DoMove(id, s, 0, Act);
    assert s1.todo == [t0[1..], t1];
    var s2 := DoMove(id, s1, 1, Act);
    assert s2.todo == [t0[1..], t1[1..]];
    var s3 := DoMove(id, s2, 0, Act);
    assert s3.todo == [t0[2..], t1[1..]];
    var s4 := DoMove(id, s3, 1, Act);
    assert s4.todo == [t0[2..], t1[2..]];
    var s5 := DoMove(id, s4, 0, Act);
    assert s5.todo == [[], t1[2..]];
    var s6 := DoMove(id, s5, 1, Act);
    assert s6.todo == [[], []];
    assert s6 == Mixed(s, t0, t1);
    MoveOne(id, s5, 1, Act, run);
    whole := [(1, Act)] + run;
    MoveOne(id, s4, 0, Act, whole);
    whole := [(0, Act)] + whole;
    MoveOne(id, s3, 1, Act, whole);
    whole := [(1, Act)] + whole;
    MoveOne(id, s2, 0, Act, whole);
    whole := [(0, Act)] + whole;
    MoveOne(id, s1, 1, Act, whole);
    whole := [(1, Act)] + whole;
    MoveOne(id, s, 0, Act, whole);
    whole := [(0, Act)] + whole;
  }

  function Mixed(s: Logs, t0: seq<LoggerStep>, t1: seq<LoggerStep>): Logs
    requires |t0| == |t1| == 3
  {
    var vs := Step(Step(s.views, t0[0]), t1[0]);
    var ws := Step(Step(vs, t0[1]), t1[1]);
    Logs(s.st, Step(Step(ws, t0[2]), t1[2]), [[], []],
         s.done + [(0, t0[0])] + [(1, t1[0])] + [(0, t0[1])] + [(1, t1[1])] + [(0, t0[2])] + [(1, t1[2])])
  }

  // Both have left, and store, the second thread first.
  lemma BothStore(id: nat, v: DefineSet, w: DefineSet, h: History, views: map<string, LoggerView>, done: seq<(nat, LoggerStep)>)
    returns (run: seq<(nat, LogsMove)>, end: Logs)
    ensures var s := Pair(id, NOTHING, Gap(v), Gap(w), h, views, [], [], done);
      CanMoves(id, s, run) && Moves(id, s, run) == end
    ensures end.views == views && end.st.val == v && end.st.pcs == [Idle, Idle]
  {
    hide CanMoves, Moves;
    var h1: History := h + [Stored(1, w)];
    var s0 := Pair(id, NOTHING, Gap(v), Gap(w), h, views, [], [], done);
    var s1 := Pair(id, NOTHING, Gap(v), Store(w), h, views, [], [], done);
    var s2 := Pair(id, w, Gap(v), Idle, h1, views, [], [], done);
    var s3 := Pair(id, w, Store(v), Idle, h1, views, [], [], done);
    end := Pair(id, v, Idle, Idle, h1 + [Stored(0, v)], views, [], [], done);
    assert DoMove(id, s0, 1, Var(LockWrite)) == s1;
    assert DoMove(id, s1, 1, Var(DoStore)) == s2;
    assert DoMove(id, s2, 0, Var(LockWrite)) == s3;
    assert DoMove(id, s3, 0, Var(DoStore)) == end;
    NoMoves(id, end);
    MoveOne(id, s3, 0, Var(DoStore), []);
    run := [(0, Var(DoStore))] + [];
    MoveOne(id, s2, 0, Var(LockWrite), run);
    run := [(0, Var(LockWrite))] + run;
    MoveOne(id, s1, 1, Var(DoStore), run);
    run := [(1, Var(DoStore))] + run;
    MoveOne(id, s0, 1, Var(LockWrite), run);
    run := [(1, Var(LockWrite))] + run;
  }

  // Both return and leave.
  lemma BothLeave(id: nat, v: DefineSet, w: DefineSet, h: History, views: map<string, LoggerView>, done: seq<(nat, LoggerStep)>)
    returns (run: seq<(nat, LogsMove)>, end: Logs)
    ensures var s := Pair(id, NOTHING, InCall(v, 0, id), InCall(w, 0, id), h, views, [], [], done);
      CanMoves(id, s, run) && Moves(id, s, run) == end
    ensures end.views == views && end.st.val == v && end.st.pcs == [Idle, Idle]
  {
    hide CanMoves, Moves;
    var h1: History := h + [Returned(0, id)];
    var h2: History := h1 + [Returned(1, id)];
    var s0 := Pair(id, NOTHING, InCall(v, 0, id), InCall(w, 0, id), h, views, [], [], done);
    var s1 := Pair(id, NOTHING, Notify(v, 1), InCall(w, 0, id), h1, views, [], [], done);
    var s2 := Pair(id, NOTHING, Notify(v, 1), Notify(w, 1), h2, views, [], [], done);
    var s3 := Pair(id, NOTHING, Gap(v), Notify(w, 1), h2, views, [], [], done);
    var s4 := Pair(id, NOTHING, Gap(v), Gap(w), h2, views, [], [], done);
    assert DoMove(id, s0, 0, Var(Return)) == s1;
    assert DoMove(id, s1, 1, Var(Return)) == s2;
    assert DoMove(id, s2, 0, Var(EndRead)) == s3;
    assert DoMove(id, s3, 1, Var(EndRead)) == s4;
    run, end := BothStore(id, v, w, h2, views, done);
    MoveOne(id, s3, 1, Var(EndRead), run);
    run := [(1, Var(EndRead))] + run;
    MoveOne(id, s2, 0, Var(EndRead), run);
    run := [(0, Var(EndRead))] + run;
    MoveOne(id, s1, 1, Var(Return), run);
    run := [(1, Var(Return))] + run;
    MoveOne(id, s0, 0, Var(Return), run);
    run := [(0, Var(Return))] + run;
  }

  lemma NoMoves(r: nat, s: Logs)
    ensures CanMoves(r, s, []) && Moves(r, s, []) == s
  {
  }

  /** When calls of the listener overlap, a logger may end up as no announcement described
      it.  Two threads set "logs" from nothing to two definitions of one name, each with
      one appender; the listener's operations for both, taken in turns, leave the logger
      with both appenders, matching neither definition, whichever is stored. */
  lemma CallsMix(id: nat, name: string, l: Compiler.Level, m: Compiler.Level, a: LogAppenderDefine, b: LogAppenderDefine)
    returns (run: seq<(nat, LogsMove)>)
    ensures var s := Begin(Origin(NOTHING, [id], id), map[], 2);
      var d, e := OneAppender(name, l, a), OneAppender(name, m, b);
      CanMoves(id, s, run) &&
      var end := Moves(id, s, run);
      end.st.pcs == [Idle, Idle] && end.st.val == Only(d) && end.views == map[name := MixedView(m, a, b)] &&
      !Matches(end.views[name], d) && !Matches(end.views[name], e) && !AllMatch(end.views, end.st.val)
  {
    var v: DefineSet, w: DefineSet := Only(OneAppender(name, l, a)), Only(OneAppender(name, m, b));
    OneScript(name, l, a);
    OneScript(name, m, b);
    MixedSteps(name, l, m, a, b);
    var s := BothInside(id, v, w);
    var t0, t1 := s.todo[0], s.todo[1];
    var mixed := Mixed(s, t0, t1);
    var end;
    hide Step, Script, CanMoves, Moves, AppenderShape, Matches;
    run, end := BothLeave(id, v, w, s.st.history, mixed.views, mixed.done);
    run := TurnsTaken(id, s, t0, t1, run);
    run := BothCall(id, v, w, run);
    TwoAreNotOne(MixedView(m, a, b), OneAppender(name, l, a));
    TwoAreNotOne(MixedView(m, a, b), OneAppender(name, m, b));
    assert OneAppender(name, l, a) in v;
  }

  lemma TwoAreNotOne(v: LoggerView, d: LogDefine)
    requires |v.appenders| != |d.appenders|
    ensures !Matches(v, d)
  {
  }
}
