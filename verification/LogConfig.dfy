/** The listener that reconciles the loggers with a new "logs" configuration: what it
    does to the logger heap, and what that means for the configuration. */
module LogConfig {
  import opened Basics
  import opened Compiler
  import opened Logging
  import Formatter

  datatype LogAppenderDefine = LogAppenderDefine(kind: int, level: Level, formatter: string, file: string)
  datatype LogDefine = LogDefine(name: string, level: Level, formatter: string, appenders: seq<LogAppenderDefine>)

  // std::set<LogDefine>, ordered by name.
  type DefineSet = s: seq<LogDefine> | Ascending(s)

  predicate Ascending(s: seq<LogDefine>) {
    forall i, j :: 0 <= i < j < |s| ==> StringLess(s[i].name, s[j].name)
  }

  // The only appender types the caster produces: 1 is a file, 2 is standard output.
  predicate Appliable(d: LogDefine) {
    forall a :: a in d.appenders ==> a.kind == 1 || a.kind == 2
  }

  predicate AllAppliable(s: seq<LogDefine>) {
    forall d :: d in s ==> Appliable(d)
  }

  // A formatter text that is set and compiles.
  predicate Usable(formatter: string) {
    formatter != "" && !Failed(Compile(formatter))
  }

  // ---------------------------------------------------------------- what a definition describes

  function AppenderShape(a: LogAppenderDefine, pattern: string): AppenderView {
    AppenderView(if a.kind == 1 then File(a.file) else Stdout, a.level, true, Usable(a.formatter),
                 if Usable(a.formatter) then a.formatter else pattern)
  }

  function AppenderShapes(appenders: seq<LogAppenderDefine>, pattern: string): (vs: seq<AppenderView>)
    ensures |vs| == |appenders| && forall j :: 0 <= j < |vs| ==> vs[j] == AppenderShape(appenders[j], pattern)
  {
    if appenders == [] then [] else [AppenderShape(appenders[0], pattern)] + AppenderShapes(appenders[1..], pattern)
  }

  // What configuring does to a logger's view; an unusable formatter text keeps the old pattern.
  function Configured(v: LoggerView, d: LogDefine): LoggerView {
    var pattern := if Usable(d.formatter) then d.formatter else v.pattern;
    LoggerView(d.level, pattern, AppenderShapes(d.appenders, pattern))
  }

  function Retired(v: LoggerView): LoggerView {
    v.(level := 0, appenders := [])
  }

  method NewAppender(a: LogAppenderDefine) returns (ap: LogAppender)
    requires a.kind == 1 || a.kind == 2
    ensures fresh(ap) && ap.kind == (if a.kind == 1 then File(a.file) else Stdout)
    ensures ap.level == a.level && ap.hasLevel && ap.hasFormatter == Usable(a.formatter)
    ensures if Usable(a.formatter) then ap.formatter != null && ap.formatter.pattern == a.formatter && ap.formatter.Ready()
            else ap.formatter == null
  {
    if a.kind == 1 {
      ap := new LogAppender(File(a.file));
    } else {
      ap := new LogAppender(Stdout);
    }
    ap.SetLevel(a.level);
    if a.formatter != "" {
      var fmt := new Formatter.LogFormatter(a.formatter);
      if !fmt.error {
        ap.SetFormatter(fmt);
      }
    }
  }

  /** The body of the listener's first loop: level, formatter, then the appenders afresh. */
  method ConfigureLogger(logger: Logger, d: LogDefine, ghost v: LoggerView)
    requires logger.Shows(v) && Appliable(d)
    modifies logger, logger.appenders
    ensures logger.Shows(Configured(v, d))
    ensures forall a :: a in logger.appenders ==> fresh(a)
  {
    hide Logger.Good, Compile, Failed;
    logger.SetLevel(d.level);
    if d.formatter != "" {
      logger.SetPattern(d.formatter);
    }
    logger.ClearAppender();
    AddAppenders(logger, d.appenders, logger.View());
  }

  method AddAppenders(logger: Logger, appenders: seq<LogAppenderDefine>, ghost v: LoggerView)
    requires logger.Shows(v) && logger.appenders == []
    requires forall a :: a in appenders ==> a.kind == 1 || a.kind == 2
    modifies logger
    ensures logger.Shows(v.(appenders := AppenderShapes(appenders, v.pattern)))
    ensures forall a :: a in logger.appenders ==> fresh(a)
  {
    hide Logger.Good, Logger.View, AppenderShapes, AppenderShape;
    ghost var shapes := AppenderShapes(appenders, v.pattern);
    NoViews(logger, v);
    var j := 0;
    while j < |appenders|
      invariant 0 <= j <= |appenders|
      invariant logger.Shows(v.(appenders := shapes[..j]))
      invariant forall a :: a in logger.appenders ==> fresh(a)
    {
      AddOne(logger, appenders[j], v.(appenders := shapes[..j]));
      assert shapes[..j] + [shapes[j]] == shapes[..j + 1];
      j := j + 1;
    }
    assert shapes[..j] == shapes;
  }

  lemma NoViews(logger: Logger, v: LoggerView)
    requires logger.Shows(v) && logger.appenders == []
    ensures v.appenders == []
  {
  }

  method AddOne(logger: Logger, a: LogAppenderDefine, ghost v: LoggerView)
    requires logger.Shows(v) && (a.kind == 1 || a.kind == 2)
    modifies logger
    ensures logger.Shows(v.(appenders := v.appenders + [AppenderShape(a, v.pattern)]))
    ensures forall b :: b in logger.appenders ==> b in old(logger.appenders) || fresh(b)
  {
    hide Compile, Failed, Logger.Good;
    var ap := NewAppender(a);
    logger.AddAppender(ap);
    assert ap.View() == AppenderShape(a, v.pattern);
  }

  // The body of the listener's second loop.
  method RetireLogger(logger: Logger, ghost v: LoggerView)
    requires logger.Shows(v)
    modifies logger
    ensures logger.Shows(Retired(v))
    ensures logger.appenders == []
  {
    logger.SetLevel(0);
    logger.ClearAppender();
  }

  // ---------------------------------------------------------------- one logger of the manager

  // All loggers but the one called name are filed as vs says and lie, with their appenders, within objs.
  ghost predicate Rest(mgr: LoggerManager, vs: map<string, LoggerView>, name: string, objs: set<object>)
    reads mgr, objs
  {
    vs.Keys == mgr.loggers.Keys && objs <= mgr.Repr &&
    forall n :: n in vs && n != name ==>
      mgr.loggers[n] in objs && (forall a :: a in mgr.loggers[n].appenders ==> a in objs) &&
      mgr.Files(mgr.loggers[n], n, vs[n])
  }

  // What the manager owns besides one logger and its appenders.
  ghost function Besides(mgr: LoggerManager, logger: Logger): (objs: set<object>)
    reads mgr, logger
    ensures logger !in objs && forall a :: a in logger.appenders ==> a !in objs
  {
    mgr.Repr - {mgr, logger} - set a | a in logger.appenders
  }

  // All loggers but the one called name hold the objects ps says, which lie within objs.
  ghost predicate RestHolds(mgr: LoggerManager, ps: map<string, Parts>, name: string, objs: set<object>)
    reads mgr, objs
  {
    forall n :: n in ps && n != name ==>
      n in mgr.loggers && mgr.loggers[n] in objs && (forall a :: a in mgr.loggers[n].appenders ==> a in objs) &&
      PartsOf(mgr.loggers[n]) == ps[n]
  }

  // Rest and RestHolds in one.
  ghost predicate Aside(mgr: LoggerManager, vs: map<string, LoggerView>, ps: map<string, Parts>, name: string, objs: set<object>)
    reads mgr, objs
  {
    Rest(mgr, vs, name, objs) && RestHolds(mgr, ps, name, objs)
  }

  lemma SeparateHolds(mgr: LoggerManager, vs: map<string, LoggerView>, name: string, objs: set<object>)
    requires Rest(mgr, vs, name, objs)
    ensures RestHolds(mgr, mgr.Holdings(), name, objs)
  {
    hide PartsOf, LoggerManager.Files;
  }

  lemma RestSame(mgr: LoggerManager, ps: map<string, Parts>, name: string, objs: set<object>)
    requires RestHolds(mgr, ps, name, objs)
    ensures forall n :: n != name ==> SameParts(ps, mgr.Holdings(), n)
  {
    hide PartsOf;
  }

  lemma RestIncludes(mgr: LoggerManager, before: map<string, Parts>, ps: map<string, Parts>, name: string, objs: set<object>)
    requires RestHolds(mgr, ps, name, objs) && forall n :: SameParts(before, ps, n)
    ensures RestHolds(mgr, before, name, objs)
  {
    hide PartsOf;
    forall n | n in before && n != name
      ensures n in mgr.loggers && mgr.loggers[n] in objs && (forall a :: a in mgr.loggers[n].appenders ==> a in objs)
      ensures PartsOf(mgr.loggers[n]) == before[n]
    {
      assert SameParts(before, ps, n);
    }
  }

  // Loggers filed under different names are different and share no appender.
  lemma Separate(mgr: LoggerManager, vs: map<string, LoggerView>, name: string)
    requires mgr.Shows(vs) && name in vs
    ensures Rest(mgr, vs, name, Besides(mgr, mgr.loggers[name]))
  {
    hide Logger.View;
    var logger := mgr.loggers[name];
    assert mgr.Files(logger, name, vs[name]);
    forall n | n in vs && n != name
      ensures mgr.loggers[n] != logger
      ensures forall a :: a in mgr.loggers[n].appenders ==> a !in logger.appenders
    {
      assert mgr.Files(mgr.loggers[n], n, vs[n]);
    }
  }

  // The manager takes over the logger's new appenders.
  ghost method Adopt(mgr: LoggerManager, logger: Logger, name: string, v: LoggerView, vs: map<string, LoggerView>,
                     ps: map<string, Parts>, objs: set<object>)
    requires Aside(mgr, vs, ps, name, objs) && mgr.Files(logger, name, v)
    requires name in vs && mgr.loggers[name] == logger && logger in mgr.Repr
    requires mgr in mgr.Repr && "root" in mgr.loggers && mgr.loggers["root"] == mgr.root && mgr.root.root == null
    modifies mgr`Repr
    ensures mgr.Shows(vs[name := v])
    ensures mgr.Repr == old(mgr.Repr) + set a | a in logger.appenders
    ensures RestHolds(mgr, ps, name, objs)
  {
    hide Logger.Shows, PartsOf, LoggerManager.Files;
    mgr.Repr := mgr.Repr + set a | a in logger.appenders;
  }

  // GetLogger, and what the manager holds besides that logger.
  method GetApart(mgr: LoggerManager, name: string, ghost vs: map<string, LoggerView>)
    returns (logger: Logger, ghost objs: set<object>)
    requires mgr.Shows(vs)
    modifies mgr`loggers, mgr`Repr
    ensures var v := ViewIn(vs, name);
      Aside(mgr, vs[name := v], old(mgr.Holdings()), name, objs) && mgr.Files(logger, name, v)
    ensures name in mgr.loggers && mgr.loggers[name] == logger && logger in mgr.Repr
    ensures logger !in objs && forall a :: a in logger.appenders ==> a !in objs && a in mgr.Repr
    ensures mgr in mgr.Repr && "root" in mgr.loggers && mgr.loggers["root"] == mgr.root && mgr.root.root == null
    ensures old(mgr.Repr) <= mgr.Repr && forall o :: o in mgr.Repr ==> o in old(mgr.Repr) || fresh(o)
    ensures mgr.Extends(old(mgr.loggers))
  {
    hide Logger.Shows, PartsOf, RestHolds, Rest, LoggerManager.Extends;
    logger := GetSame(mgr, name, vs);
    objs := Besides(mgr, logger);
    assert mgr.Owns(logger);
    Separate(mgr, vs[name := ViewIn(vs, name)], name);
    SeparateHolds(mgr, vs[name := ViewIn(vs, name)], name, objs);
    RestIncludes(mgr, old(mgr.Holdings()), mgr.Holdings(), name, objs);
  }

  // GetLogger changes nothing of the loggers there are.
  method GetSame(mgr: LoggerManager, name: string, ghost vs: map<string, LoggerView>) returns (logger: Logger)
    requires mgr.Shows(vs)
    modifies mgr`loggers, mgr`Repr
    ensures mgr.Shows(vs[name := ViewIn(vs, name)]) && logger == mgr.loggers[name]
    ensures mgr.Extends(old(mgr.loggers))
    ensures old(mgr.Repr) <= mgr.Repr && forall o :: o in mgr.Repr ==> o in old(mgr.Repr) || fresh(o)
    ensures forall n :: SameParts(old(mgr.Holdings()), mgr.Holdings(), n)
  {
    hide LoggerManager.Shows, PartsOf;
    logger := mgr.GetLogger(name, vs);
  }

  lemma Overwrite<K, V>(m: map<K, V>, k: K, v: V, w: V)
    ensures m[k := v][k := w] == m[k := w]
  {
  }

  // Configure one logger apart from the others.
  method ConfigureApart(mgr: LoggerManager, logger: Logger, d: LogDefine, ghost v: LoggerView, ghost ws: map<string, LoggerView>,
                  ghost ps: map<string, Parts>, ghost objs: set<object>)
    requires Aside(mgr, ws, ps, d.name, objs) && mgr.Files(logger, d.name, v) && d.name in ws && Appliable(d)
    requires d.name in mgr.loggers && mgr.loggers[d.name] == logger && logger in mgr.Repr
    requires logger !in objs && forall a :: a in logger.appenders ==> a !in objs && a in mgr.Repr
    requires mgr in mgr.Repr && "root" in mgr.loggers && mgr.loggers["root"] == mgr.root && mgr.root.root == null
    modifies logger, logger.appenders, mgr`Repr
    ensures mgr.Shows(ws[d.name := Configured(v, d)]) && RestHolds(mgr, ps, d.name, objs) && mgr.loggers == old(mgr.loggers)
    ensures old(mgr.Repr) <= mgr.Repr && forall o :: o in mgr.Repr ==> o in old(mgr.Repr) || fresh(o)
  {
    hide Configured, Logger.Shows, LoggerManager.Shows, Aside, RestHolds;
    ConfigureLogger(logger, d, v);
    Adopt(mgr, logger, d.name, Configured(v, d), ws, ps, objs);
  }

  /** Configures one logger.  Every logger stays the object it was, and all others keep
      their views and the very formatters and appenders they had. */
  method Configure(mgr: LoggerManager, d: LogDefine, ghost vs: map<string, LoggerView>)
    requires mgr.Shows(vs) && Appliable(d)
    modifies mgr.Repr
    ensures mgr.Shows(vs[d.name := Configured(ViewIn(vs, d.name), d)])
    ensures old(mgr.Repr) <= mgr.Repr && forall o :: o in mgr.Repr ==> o in old(mgr.Repr) || fresh(o)
    ensures mgr.Extends(old(mgr.loggers))
    ensures forall n :: n != d.name ==> SameParts(old(mgr.Holdings()), mgr.Holdings(), n)
  {
    assert mgr in mgr.Repr;
    ghost var ps, v := mgr.Holdings(), ViewIn(vs, d.name);
    hide Configured, Logger.Shows, LoggerManager.Shows, LoggerManager.Files, Aside, RestHolds;
    hide LoggerManager.Holdings, LoggerManager.Extends, SameParts;
    var logger, objs := GetApart(mgr, d.name, vs);
    ConfigureApart(mgr, logger, d, v, vs[d.name := v], ps, objs);
    Overwrite(vs, d.name, v, Configured(v, d));
    RestSame(mgr, ps, d.name, objs);
  }

  // Retire one logger apart from the others.
  method RetireApart(mgr: LoggerManager, logger: Logger, name: string, ghost v: LoggerView, ghost ws: map<string, LoggerView>,
                  ghost ps: map<string, Parts>, ghost objs: set<object>)
    requires Aside(mgr, ws, ps, name, objs) && mgr.Files(logger, name, v) && name in ws
    requires name in mgr.loggers && mgr.loggers[name] == logger && logger in mgr.Repr
    requires logger !in objs && forall a :: a in logger.appenders ==> a !in objs && a in mgr.Repr
    requires mgr in mgr.Repr && "root" in mgr.loggers && mgr.loggers["root"] == mgr.root && mgr.root.root == null
    modifies logger, mgr`Repr
    ensures mgr.Shows(ws[name := Retired(v)]) && RestHolds(mgr, ps, name, objs) && mgr.loggers == old(mgr.loggers)
    ensures old(mgr.Repr) <= mgr.Repr && forall o :: o in mgr.Repr ==> o in old(mgr.Repr) || fresh(o)
  {
    hide Retired, Logger.Shows, LoggerManager.Shows, Aside, RestHolds;
    RetireLogger(logger, v);
    Adopt(mgr, logger, name, Retired(v), ws, ps, objs);
  }

  /** Retires one logger.  Every logger stays the object it was, and all others keep their
      views and the very formatters and appenders they had. */
  method Retire(mgr: LoggerManager, name: string, ghost vs: map<string, LoggerView>)
    requires mgr.Shows(vs)
    modifies mgr.Repr
    ensures mgr.Shows(vs[name := Retired(ViewIn(vs, name))])
    ensures old(mgr.Repr) <= mgr.Repr && forall o :: o in mgr.Repr ==> o in old(mgr.Repr) || fresh(o)
    ensures mgr.Extends(old(mgr.loggers))
    ensures forall n :: n != name ==> SameParts(old(mgr.Holdings()), mgr.Holdings(), n)
  {
    assert mgr in mgr.Repr;
    ghost var ps, v := mgr.Holdings(), ViewIn(vs, name);
    hide Retired, Logger.Shows, LoggerManager.Shows, LoggerManager.Files, Aside, RestHolds, LoggerManager.Holdings, LoggerManager.Extends, SameParts;
    var logger, objs := GetApart(mgr, name, vs);
    RetireApart(mgr, logger, name, v, vs[name := v], ps, objs);
    Overwrite(vs, name, v, Retired(v));
    RestSame(mgr, ps, name, objs);
  }

  // ---------------------------------------------------------------- the listener

  function Find(s: seq<LogDefine>, name: string): Option<LogDefine> {
    if s == [] then None else if s[0].name == name then Some(s[0]) else Find(s[1..], name)
  }

  lemma {:induction false} FindIff(s: seq<LogDefine>, d: LogDefine)
    requires Ascending(s)
    ensures Find(s, d.name) == Some(d) <==> d in s
    decreases s
  {
    if s != [] {
      assert Ascending(s[1..]);
      FindIff(s[1..], d);
      assert s == [s[0]] + s[1..];
      if s[0].name == d.name && d in s[1..] {
        var j :| 0 <= j < |s[1..]| && s[1..][j] == d;
        StringLessTotal(s[0].name, s[j + 1].name);
      }
    }
  }

  lemma {:induction false} FindNone(s: seq<LogDefine>, n: string)
    ensures Find(s, n).None? <==> forall d :: d in s ==> d.name != n
    ensures Find(s, n).Some? ==> Find(s, n).value in s && Find(s, n).value.name == n
  {
    if s != [] {
      FindNone(s[1..], n);
    }
  }

  // One turn of the first loop: new and changed definitions are applied, equal ones skipped.
  function Update(vs: map<string, LoggerView>, oldVal: seq<LogDefine>, d: LogDefine): map<string, LoggerView> {
    if Find(oldVal, d.name) == Some(d) then vs else vs[d.name := Configured(ViewIn(vs, d.name), d)]
  }

  // One turn of the second loop: a name that is gone loses its level and its appenders.
  function Drop(vs: map<string, LoggerView>, newVal: seq<LogDefine>, d: LogDefine): map<string, LoggerView> {
    if Find(newVal, d.name).Some? then vs else vs[d.name := Retired(ViewIn(vs, d.name))]
  }

  function UpdateAll(vs: map<string, LoggerView>, oldVal: seq<LogDefine>, todo: seq<LogDefine>): map<string, LoggerView>
    decreases todo
  {
    if todo == [] then vs else UpdateAll(Update(vs, oldVal, todo[0]), oldVal, todo[1..])
  }

  function DropAll(vs: map<string, LoggerView>, newVal: seq<LogDefine>, todo: seq<LogDefine>): map<string, LoggerView>
    decreases todo
  {
    if todo == [] then vs else DropAll(Drop(vs, newVal, todo[0]), newVal, todo[1..])
  }

  function Reconcile(vs: map<string, LoggerView>, oldVal: seq<LogDefine>, newVal: seq<LogDefine>): map<string, LoggerView> {
    DropAll(UpdateAll(vs, oldVal, newVal), newVal, oldVal)
  }

  // What an INFO event logged through the root logger leads to, reopening included.
  ghost function Announcement(mgr: LoggerManager, vs: map<string, LoggerView>, note: Event,
                              strftime: (string, Time) -> string): seq<Effect>
    requires mgr.Shows(vs)
    reads mgr, mgr.Repr
  {
    assert mgr.loggers["root"] in mgr.loggers.Values;
    mgr.AllGood(mgr.root, vs);
    mgr.root.OwnEffects(2, note, strftime)
  }

  // The announcement is made at the level called INFO.
  lemma AnnouncedAtInfo(mgr: LoggerManager, vs: map<string, LoggerView>, note: Event, strftime: (string, Time) -> string, l: Level)
    requires mgr.Shows(vs) && LevelText(l) == "INFO"
    requires mgr.root.Good()
    ensures Announcement(mgr, vs, note, strftime) == mgr.root.OwnEffects(l, note, strftime)
  {
    hide Logger.OwnEffects, LoggerManager.Shows, Logger.Good;
  }

  // SYLAR_LOG_INFO on the root logger.
  method LogInfo(mgr: LoggerManager, note: Event, world: World, ghost vs: map<string, LoggerView>)
    requires mgr.Shows(vs) && world !in mgr.Repr
    modifies world, (set a: LogAppender | a in mgr.Repr)`lastTime
    ensures mgr.Shows(vs)
    ensures world.trace == old(world.trace) + old(Announcement(mgr, vs, note, world.strftime))
  {
    assert mgr.loggers["root"] in mgr.loggers.Values;
    hide Logger.Effects, LoggerManager.Shows;
    mgr.LogThrough(mgr.root, 2, note, world, vs);
  }

  /** The listener's announcement: it reaches the appenders the root logger has at that
      moment, and moves nothing but the last times of appenders. */
  method Announce(mgr: LoggerManager, note: Event, world: World, ghost vs: map<string, LoggerView>)
    requires mgr.Shows(vs) && world !in mgr.Repr
    modifies world, (set a: LogAppender | a in mgr.Repr)`lastTime
    ensures mgr.Shows(vs)
    ensures world.trace == old(world.trace) + old(Announcement(mgr, vs, note, world.strftime))
    ensures forall n :: SameParts(old(mgr.Holdings()), mgr.Holdings(), n)
  {
    hide Announcement, LoggerManager.Shows, PartsOf;
    LogInfo(mgr, note, world, vs);
  }

  // The objects the names that neither loop touches are bound to stay the same.
  lemma SameTurn(ps: map<string, Parts>, before: map<string, Parts>, after: map<string, Parts>, oldVal: DefineSet, newVal: DefineSet, name: string)
    requires forall n :: Find(oldVal, n) == Find(newVal, n) ==> SameParts(ps, before, n)
    requires forall n :: n != name ==> SameParts(before, after, n)
    requires Find(oldVal, name) != Find(newVal, name)
    ensures forall n :: Find(oldVal, n) == Find(newVal, n) ==> SameParts(ps, after, n)
  {
    hide Find;
    forall n | Find(oldVal, n) == Find(newVal, n) ensures SameParts(ps, after, n) {
      assert SameParts(ps, before, n) && SameParts(before, after, n);
    }
  }

  lemma FindAt(s: DefineSet, i: nat)
    requires i < |s|
    ensures Find(s, s[i].name) == Some(s[i])
  {
    FindIff(s, s[i]);
  }

  /** The listener, on the heap: it announces the change through the root logger as it was,
      and then, whatever loggers the manager holds, they show what Reconcile makes of what
      they showed before.  Every logger stays the object it was, and one whose definition
      is the same before and after, or missing in both, keeps its very formatter and
      appenders. */
  method OnLogsChanged(mgr: LoggerManager, oldVal: DefineSet, newVal: DefineSet, note: Event, world: World,
                       ghost vs: map<string, LoggerView>)
    requires mgr.Shows(vs) && AllAppliable(newVal) && world !in mgr.Repr
    modifies mgr.Repr, world
    ensures mgr.Shows(Reconcile(vs, oldVal, newVal))
    ensures world.trace == old(world.trace) + old(Announcement(mgr, vs, note, world.strftime))
    ensures old(mgr.Repr) <= mgr.Repr && forall o :: o in mgr.Repr ==> o in old(mgr.Repr) || fresh(o)
    ensures mgr.Extends(old(mgr.loggers))
    ensures forall n :: Find(oldVal, n) == Find(newVal, n) ==> SameParts(old(mgr.Holdings()), mgr.Holdings(), n)
  {
    hide LoggerManager.Shows, Configured, Retired, Announcement, LoggerManager.Holdings, SameParts;
    ghost var ps := mgr.Holdings();
    Announce(mgr, note, world, vs);
    ghost var ws, announced := vs, world.trace;
    var i := 0;
    assert newVal[i..] == newVal;
    while i < |newVal|
      invariant 0 <= i <= |newVal| && mgr.Shows(ws) && world.trace == announced
      invariant UpdateAll(ws, oldVal, newVal[i..]) == UpdateAll(vs, oldVal, newVal)
      invariant old(mgr.Repr) <= mgr.Repr && forall o :: o in mgr.Repr ==> o in old(mgr.Repr) || fresh(o)
      invariant mgr.Extends(old(mgr.loggers))
      invariant forall n :: Find(oldVal, n) == Find(newVal, n) ==> SameParts(ps, mgr.Holdings(), n)
    {
      var d := newVal[i];
      assert newVal[i..][1..] == newVal[i + 1..];
      var it := Find(oldVal, d.name);
      if it == None || it.value != d {
        FindAt(newVal, i);
        ghost var before := mgr.Holdings();
        Configure(mgr, d, ws);
        SameTurn(ps, before, mgr.Holdings(), oldVal, newVal, d.name);
      }
      ws := Update(ws, oldVal, d);
      i := i + 1;
    }
    ghost var us := ws;
    i := 0;
    assert oldVal[i..] == oldVal;
    while i < |oldVal|
      invariant 0 <= i <= |oldVal| && mgr.Shows(ws) && world.trace == announced
      invariant DropAll(ws, newVal, oldVal[i..]) == DropAll(us, newVal, oldVal)
      invariant old(mgr.Repr) <= mgr.Repr && forall o :: o in mgr.Repr ==> o in old(mgr.Repr) || fresh(o)
      invariant mgr.Extends(old(mgr.loggers))
      invariant forall n :: Find(oldVal, n) == Find(newVal, n) ==> SameParts(ps, mgr.Holdings(), n)
    {
      var d := oldVal[i];
      assert oldVal[i..][1..] == oldVal[i + 1..];
      if Find(newVal, d.name) == None {
        FindAt(oldVal, i);
        ghost var before := mgr.Holdings();
        Retire(mgr, d.name, ws);
        SameTurn(ps, before, mgr.Holdings(), oldVal, newVal, d.name);
      }
      ws := Drop(ws, newVal, d);
      i := i + 1;
    }
  }
}
