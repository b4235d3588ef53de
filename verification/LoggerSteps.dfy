/** The reconciling listener as the sequence of locked logger operations it is made of:
    what they add up to in order, and what they leave when others come in between. */
module LoggerSteps {
  import opened Basics
  import opened Compiler
  import opened Logging
  import opened LogConfig
  import opened Reconciling

  // One operation of the listener on one logger, done under that logger's lock.
  datatype LoggerOp = SetLevel(level: Level) | SetPattern(text: string) | Clear | Add(a: LogAppenderDefine)

  datatype LoggerStep = LoggerStep(name: string, op: LoggerOp)

  function Perform(v: LoggerView, op: LoggerOp): LoggerView {
    match op
    case SetLevel(level) => v.(level := level)
    case SetPattern(text) => if Failed(Compile(text)) then v else Repatterned(v, text)
    case Clear => v.(appenders := [])
    case Add(a) => v.(appenders := v.appenders + [AppenderShape(a, v.pattern)])
  }

  /** The operation itself, on a logger: it does to the logger what Perform does to its view. */
  method Execute(logger: Logger, op: LoggerOp, ghost v: LoggerView)
    requires logger.Shows(v) && (op.Add? ==> op.a.kind == 1 || op.a.kind == 2)
    modifies logger, logger.appenders
    ensures logger.Shows(Perform(v, op))
  {
    hide Logger.Good, Compile, Failed, Repatterned, AppenderShape;
    match op {
      case SetLevel(level) => logger.SetLevel(level);
      case SetPattern(text) => logger.SetPattern(text);
      case Clear => logger.ClearAppender();
      case Add(a) => AddOne(logger, a, v);
    }
  }

  function PerformAll(v: LoggerView, ops: seq<LoggerOp>): LoggerView
    decreases ops
  {
    if ops == [] then v else PerformAll(Perform(v, ops[0]), ops[1..])
  }

  // The logger is fetched, or made, by the first step on its name.
  function Step(vs: map<string, LoggerView>, st: LoggerStep): map<string, LoggerView> {
    vs[st.name := Perform(ViewIn(vs, st.name), st.op)]
  }

  function StepAll(vs: map<string, LoggerView>, steps: seq<LoggerStep>): map<string, LoggerView>
    decreases steps
  {
    if steps == [] then vs else StepAll(Step(vs, steps[0]), steps[1..])
  }

  // ---------------------------------------------------------------- the listener's script

  function Adds(appenders: seq<LogAppenderDefine>): seq<LoggerOp> {
    if appenders == [] then [] else [Add(appenders[0])] + Adds(appenders[1..])
  }

  // The body of the first loop.
  function ConfigureOps(d: LogDefine): seq<LoggerOp> {
    [SetLevel(d.level)] + (if d.formatter != "" then [SetPattern(d.formatter)] else []) + [Clear] + Adds(d.appenders)
  }

  // The body of the second loop.
  const RETIRE_OPS: seq<LoggerOp> := [SetLevel(0), Clear]

  function Named(name: string, ops: seq<LoggerOp>): seq<LoggerStep> {
    if ops == [] then [] else [LoggerStep(name, ops[0])] + Named(name, ops[1..])
  }

  function Updates(oldVal: seq<LogDefine>, todo: seq<LogDefine>): seq<LoggerStep> {
    if todo == [] then []
    else
      var first := if Find(oldVal, todo[0].name) == Some(todo[0]) then [] else Named(todo[0].name, ConfigureOps(todo[0]));
      first + Updates(oldVal, todo[1..])
  }

  function Drops(newVal: seq<LogDefine>, todo: seq<LogDefine>): seq<LoggerStep> {
    if todo == [] then []
    else (if Find(newVal, todo[0].name).Some? then [] else Named(todo[0].name, RETIRE_OPS)) + Drops(newVal, todo[1..])
  }

  // Everything one call of the listener does, after its announcement.
  function Script(oldVal: seq<LogDefine>, newVal: seq<LogDefine>): seq<LoggerStep> {
    Updates(oldVal, newVal) + Drops(newVal, oldVal)
  }

  lemma {:induction false} PerformConcat(v: LoggerView, ops: seq<LoggerOp>, more: seq<LoggerOp>)
    ensures PerformAll(v, ops + more) == PerformAll(PerformAll(v, ops), more)
    decreases ops
  {
    if ops == [] {
      assert ops + more == more;
    } else {
      hide Perform;
      assert (ops + more)[1..] == ops[1..] + more;
      PerformConcat(Perform(v, ops[0]), ops[1..], more);
    }
  }

  lemma {:induction false} StepConcat(vs: map<string, LoggerView>, steps: seq<LoggerStep>, more: seq<LoggerStep>)
    ensures StepAll(vs, steps + more) == StepAll(StepAll(vs, steps), more)
    decreases steps
  {
    if steps == [] {
      assert steps + more == more;
    } else {
      hide Step;
      assert (steps + more)[1..] == steps[1..] + more;
      StepConcat(Step(vs, steps[0]), steps[1..], more);
    }
  }

  lemma {:induction false} NamedSteps(vs: map<string, LoggerView>, name: string, ops: seq<LoggerOp>)
    ensures StepAll(vs, Named(name, ops)) == if ops == [] then vs else vs[name := PerformAll(ViewIn(vs, name), ops)]
    decreases ops
  {
    if ops != [] {
      hide Perform;
      var next := Step(vs, LoggerStep(name, ops[0]));
      assert Named(name, ops)[1..] == Named(name, ops[1..]);
      NamedSteps(next, name, ops[1..]);
      assert ViewIn(next, name) == Perform(ViewIn(vs, name), ops[0]);
    }
  }

  lemma {:induction false} AddsShape(v: LoggerView, appenders: seq<LogAppenderDefine>)
    ensures PerformAll(v, Adds(appenders)) == v.(appenders := v.appenders + AppenderShapes(appenders, v.pattern))
    decreases appenders
  {
    if appenders == [] {
      assert v.appenders + [] == v.appenders;
    } else {
      hide AppenderShape;
      var next := Perform(v, Add(appenders[0]));
      assert Adds(appenders)[1..] == Adds(appenders[1..]);
      AddsShape(next, appenders[1..]);
      Assoc(v.appenders, [AppenderShape(appenders[0], v.pattern)], AppenderShapes(appenders[1..], v.pattern));
    }
  }

  lemma PerformOne(v: LoggerView, op: LoggerOp)
    ensures PerformAll(v, [op]) == Perform(v, op)
  {
    hide Perform;
    assert [op][1..] == [];
  }

  // Level and formatter come first.
  lemma HeadDone(v: LoggerView, d: LogDefine)
    ensures var head := [SetLevel(d.level)] + if d.formatter != "" then [SetPattern(d.formatter)] else [];
      PerformAll(v, head).level == d.level && PerformAll(v, head).pattern == if Usable(d.formatter) then d.formatter else v.pattern
  {
    var second: seq<LoggerOp> := if d.formatter != "" then [SetPattern(d.formatter)] else [];
    PerformConcat(v, [SetLevel(d.level)], second);
    PerformOne(v, SetLevel(d.level));
    PerformOne(v.(level := d.level), SetPattern(d.formatter));
    hide Failed, Compile;
  }

  lemma ConfigureDone(v: LoggerView, d: LogDefine)
    ensures PerformAll(v, ConfigureOps(d)) == Configured(v, d)
  {
    var head := [SetLevel(d.level)] + if d.formatter != "" then [SetPattern(d.formatter)] else [];
    var mid := PerformAll(v, head);
    HeadDone(v, d);
    PerformConcat(v, head + [Clear], Adds(d.appenders));
    PerformConcat(v, head, [Clear]);
    PerformOne(mid, Clear);
    AddsShape(mid.(appenders := []), d.appenders);
    hide PerformAll, Usable, AppenderShapes;
    assert [] + AppenderShapes(d.appenders, mid.pattern) == AppenderShapes(d.appenders, mid.pattern);
  }

  lemma RetireDone(v: LoggerView)
    ensures PerformAll(v, RETIRE_OPS) == Retired(v)
  {
    assert RETIRE_OPS[1..] == [Clear];
    PerformOne(v.(level := 0), Clear);
  }

  lemma {:induction false} UpdatesDone(vs: map<string, LoggerView>, oldVal: seq<LogDefine>, todo: seq<LogDefine>)
    ensures StepAll(vs, Updates(oldVal, todo)) == UpdateAll(vs, oldVal, todo)
    decreases todo
  {
    if todo != [] {
      var d := todo[0];
      var first := if Find(oldVal, d.name) == Some(d) then [] else Named(d.name, ConfigureOps(d));
      StepConcat(vs, first, Updates(oldVal, todo[1..]));
      NamedSteps(vs, d.name, ConfigureOps(d));
      ConfigureDone(ViewIn(vs, d.name), d);
      hide Configured, ConfigureOps, Find, Named;
      UpdatesDone(Update(vs, oldVal, d), oldVal, todo[1..]);
    }
  }

  lemma {:induction false} DropsDone(vs: map<string, LoggerView>, newVal: seq<LogDefine>, todo: seq<LogDefine>)
    ensures StepAll(vs, Drops(newVal, todo)) == DropAll(vs, newVal, todo)
    decreases todo
  {
    if todo != [] {
      var d := todo[0];
      var first := if Find(newVal, d.name).Some? then [] else Named(d.name, RETIRE_OPS);
      StepConcat(vs, first, Drops(newVal, todo[1..]));
      NamedSteps(vs, d.name, RETIRE_OPS);
      RetireDone(ViewIn(vs, d.name));
      hide Retired, Find, Named;
      DropsDone(Drop(vs, newVal, d), newVal, todo[1..]);
    }
  }

  /** Uninterrupted, the listener's operations one by one come to what the two loops do. */
  lemma ScriptReconciles(vs: map<string, LoggerView>, oldVal: seq<LogDefine>, newVal: seq<LogDefine>)
    ensures StepAll(vs, Script(oldVal, newVal)) == Reconcile(vs, oldVal, newVal)
  {
    StepConcat(vs, Updates(oldVal, newVal), Drops(newVal, oldVal));
    UpdatesDone(vs, oldVal, newVal);
    DropsDone(UpdateAll(vs, oldVal, newVal), newVal, oldVal);
  }

  // ---------------------------------------------------------------- operations in any order

  // The operations on one logger, in order.
  function OpsOn(steps: seq<LoggerStep>, n: string): seq<LoggerOp> {
    if steps == [] then [] else (if steps[0].name == n then [steps[0].op] else []) + OpsOn(steps[1..], n)
  }

  lemma {:induction false} StepsAt(vs: map<string, LoggerView>, steps: seq<LoggerStep>, n: string)
    ensures Lookup(StepAll(vs, steps), n) ==
      if OpsOn(steps, n) == [] then Lookup(vs, n) else Some(PerformAll(ViewIn(vs, n), OpsOn(steps, n)))
    decreases steps
  {
    if steps != [] {
      hide Perform;
      var next := Step(vs, steps[0]);
      StepsAt(next, steps[1..], n);
      var rest := OpsOn(steps[1..], n);
      if steps[0].name == n {
        assert ([steps[0].op] + rest)[1..] == rest;
        assert ViewIn(next, n) == Perform(ViewIn(vs, n), steps[0].op);
      } else {
        assert [] + rest == rest;
      }
    }
  }

  function LevelAfter(level: Level, ops: seq<LoggerOp>): Level
    decreases ops
  {
    if ops == [] then level else LevelAfter(if ops[0].SetLevel? then ops[0].level else level, ops[1..])
  }

  function PatternAfter(pattern: string, ops: seq<LoggerOp>): string
    decreases ops
  {
    if ops == [] then pattern
    else PatternAfter(if ops[0].SetPattern? && !Failed(Compile(ops[0].text)) then ops[0].text else pattern, ops[1..])
  }

  // The definitions of the appenders added since the last clear.
  function AddedAfter(added: seq<LogAppenderDefine>, ops: seq<LoggerOp>): seq<LogAppenderDefine>
    decreases ops
  {
    if ops == [] then added
    else AddedAfter(if ops[0].Clear? then [] else if ops[0].Add? then added + [ops[0].a] else added, ops[1..])
  }

  // Inheriting appenders show their logger's pattern, as in every logger that is Good.
  predicate Inheriting(v: LoggerView) {
    forall x :: x in v.appenders ==> x.own || x.pattern == v.pattern
  }

  // What a logger shows: appenders it had, with its pattern, and then the ones defined by added.
  predicate Holding(v: LoggerView, had: seq<AppenderView>, added: seq<LogAppenderDefine>) {
    |v.appenders| == |had| + |added| &&
    (forall j :: 0 <= j < |had| ==> v.appenders[j] == if had[j].own then had[j] else had[j].(pattern := v.pattern)) &&
    forall j :: 0 <= j < |added| ==> v.appenders[|had| + j] == AppenderShape(added[j], v.pattern)
  }

  lemma HoldingStep(v: LoggerView, op: LoggerOp, had: seq<AppenderView>, added: seq<LogAppenderDefine>)
    requires Holding(v, had, added)
    ensures Holding(Perform(v, op), if op.Clear? then [] else had,
                    if op.Clear? then [] else if op.Add? then added + [op.a] else added)
    ensures Perform(v, op).level == (if op.SetLevel? then op.level else v.level)
    ensures Perform(v, op).pattern == (if op.SetPattern? && !Failed(Compile(op.text)) then op.text else v.pattern)
  {
    hide Usable, Failed, Compile;
  }

  lemma {:induction false} HoldingAfter(v: LoggerView, ops: seq<LoggerOp>, had: seq<AppenderView>, added: seq<LogAppenderDefine>)
    requires Holding(v, had, added)
    ensures Holding(PerformAll(v, ops), if Clear in ops then [] else had, AddedAfter(added, ops))
    ensures PerformAll(v, ops).level == LevelAfter(v.level, ops) && PerformAll(v, ops).pattern == PatternAfter(v.pattern, ops)
    decreases ops
  {
    if ops != [] {
      HoldingStep(v, ops[0], had, added);
      assert ops == [ops[0]] + ops[1..];
      hide Perform, Holding, Failed, Compile;
      HoldingAfter(Perform(v, ops[0]), ops[1..], if ops[0].Clear? then [] else had,
                   if ops[0].Clear? then [] else if ops[0].Add? then added + [ops[0].a] else added);
    }
  }

  /** In whatever order operations reach a logger, it shows the last level set, the last
      usable pattern, and the appenders added since the last clear, behind those it had if
      there was none; appenders without a formatter of their own show the logger's pattern. */
  lemma OpsAddUp(v: LoggerView, ops: seq<LoggerOp>)
    requires Inheriting(v)
    ensures var end := PerformAll(v, ops);
      end.level == LevelAfter(v.level, ops) && end.pattern == PatternAfter(v.pattern, ops) &&
      Holding(end, if Clear in ops then [] else v.appenders, AddedAfter([], ops))
  {
    assert forall j :: 0 <= j < |v.appenders| ==> v.appenders[j] in v.appenders;
    assert Holding(v, v.appenders, []);
    HoldingAfter(v, ops, v.appenders, []);
  }
}
