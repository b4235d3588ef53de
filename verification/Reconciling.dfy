/** What reconciling amounts to, logger by logger and over whole runs of configurations. */
module Reconciling {
  import opened Basics
  import opened Compiler
  import opened Logging
  import opened LogConfig
  import opened RoundTrip

  function Lookup<T>(m: map<string, T>, n: string): Option<T> {
    if n in m then Some(m[n]) else None
  }

  // ---------------------------------------------------------------- loggers and definitions

  // The appender is the one the definition asks for; without a usable formatter of its own
  // it uses the logger's.
  predicate AppenderMatches(x: AppenderView, a: LogAppenderDefine, pattern: string) {
    x.kind == (if a.kind == 1 then File(a.file) else Stdout) && x.level == a.level && x.hasLevel &&
    x.own == Usable(a.formatter) && x.pattern == if x.own then a.formatter else pattern
  }

  // The logger is as the definition describes; an unusable formatter text describes nothing.
  predicate Matches(v: LoggerView, d: LogDefine) {
    v.level == d.level && (Usable(d.formatter) ==> v.pattern == d.formatter) &&
    |v.appenders| == |d.appenders| &&
    forall j :: 0 <= j < |v.appenders| ==> AppenderMatches(v.appenders[j], d.appenders[j], v.pattern)
  }

  predicate AllMatch(vs: map<string, LoggerView>, defs: seq<LogDefine>) {
    forall d :: d in defs ==> d.name in vs && Matches(vs[d.name], d)
  }

  // A logger matches a definition exactly when configuring it again would change nothing.
  lemma MatchesIffStable(v: LoggerView, d: LogDefine)
    ensures Matches(v, d) <==> Configured(v, d) == v
  {
    hide Usable;
  }

  lemma ConfiguredMatches(v: LoggerView, d: LogDefine)
    ensures Matches(Configured(v, d), d)
  {
    hide Usable;
  }

  // ---------------------------------------------------------------- one reconciliation

  // In an ascending list the first name does not come again.
  lemma NoRepeat(s: seq<LogDefine>)
    requires s != [] && Ascending(s)
    ensures Ascending(s[1..]) && Find(s[1..], s[0].name).None?
  {
    FindNone(s[1..], s[0].name);
    forall d | d in s[1..] ensures d.name != s[0].name {
      var j :| 0 <= j < |s[1..]| && s[1..][j] == d;
      StringLessTotal(s[0].name, s[j + 1].name);
    }
  }

  function Updated(vs: map<string, LoggerView>, oldVal: seq<LogDefine>, todo: seq<LogDefine>, n: string): Option<LoggerView> {
    match Find(todo, n)
    case None => Lookup(vs, n)
    case Some(d) => if Find(oldVal, n) == Some(d) then Lookup(vs, n) else Some(Configured(ViewIn(vs, n), d))
  }

  lemma {:induction false} UpdateAllAt(vs: map<string, LoggerView>, oldVal: seq<LogDefine>, todo: seq<LogDefine>, n: string)
    requires Ascending(todo)
    ensures Lookup(UpdateAll(vs, oldVal, todo), n) == Updated(vs, oldVal, todo, n)
    decreases todo
  {
    if todo != [] {
      hide Configured, Ascending;
      NoRepeat(todo);
      UpdateAllAt(Update(vs, oldVal, todo[0]), oldVal, todo[1..], n);
    }
  }

  function Dropped(vs: map<string, LoggerView>, newVal: seq<LogDefine>, todo: seq<LogDefine>, n: string): Option<LoggerView> {
    if Find(todo, n).Some? && Find(newVal, n).None? then Some(Retired(ViewIn(vs, n))) else Lookup(vs, n)
  }

  lemma {:induction false} DropAllAt(vs: map<string, LoggerView>, newVal: seq<LogDefine>, todo: seq<LogDefine>, n: string)
    requires Ascending(todo)
    ensures Lookup(DropAll(vs, newVal, todo), n) == Dropped(vs, newVal, todo, n)
    decreases todo
  {
    if todo != [] {
      hide Retired, Ascending;
      NoRepeat(todo);
      DropAllAt(Drop(vs, newVal, todo[0]), newVal, todo[1..], n);
    }
  }

  /** What reconciling does to the logger called n: configured when its definition is new
      or changed, retired when its definition is gone, otherwise untouched. */
  lemma ReconcileAt(vs: map<string, LoggerView>, oldVal: DefineSet, newVal: DefineSet, n: string)
    ensures Lookup(Reconcile(vs, oldVal, newVal), n) ==
      match Find(newVal, n)
      case Some(d) => if Find(oldVal, n) == Some(d) then Lookup(vs, n) else Some(Configured(ViewIn(vs, n), d))
      case None => if Find(oldVal, n).Some? then Some(Retired(ViewIn(vs, n))) else Lookup(vs, n)
  {
    hide Configured, Retired;
    UpdateAllAt(vs, oldVal, newVal, n);
    DropAllAt(UpdateAll(vs, oldVal, newVal), newVal, oldVal, n);
  }

  /** Incremental reconciliation is correct.  If the loggers match the old configuration,
      then afterwards they match the new one, although unchanged definitions were skipped;
      a name that is gone keeps nothing but its pattern; every other logger is untouched. */
  lemma ReconcileCorrect(vs: map<string, LoggerView>, oldVal: DefineSet, newVal: DefineSet)
    requires AllMatch(vs, oldVal)
    ensures AllMatch(Reconcile(vs, oldVal, newVal), newVal)
    ensures forall n :: Find(newVal, n).None? && Find(oldVal, n).Some? ==>
      Lookup(Reconcile(vs, oldVal, newVal), n) == Some(LoggerView(0, ViewIn(vs, n).pattern, []))
    ensures forall n :: Find(newVal, n).None? && Find(oldVal, n).None? ==>
      Lookup(Reconcile(vs, oldVal, newVal), n) == Lookup(vs, n)
  {
    var ws := Reconcile(vs, oldVal, newVal);
    forall d | d in newVal ensures d.name in ws && Matches(ws[d.name], d) {
      ReconcileAt(vs, oldVal, newVal, d.name);
      FindIff(newVal, d);
      FindIff(oldVal, d);
      ConfiguredMatches(ViewIn(vs, d.name), d);
    }
    forall n ensures Find(newVal, n).None? && Find(oldVal, n).Some? ==>
        Lookup(ws, n) == Some(LoggerView(0, ViewIn(vs, n).pattern, []))
      ensures Find(newVal, n).None? && Find(oldVal, n).None? ==> Lookup(ws, n) == Lookup(vs, n)
    {
      ReconcileAt(vs, oldVal, newVal, n);
    }
  }

  /** Whether the configuration alone decides a logger's state: it does exactly when the
      formatter text is usable or the logger happens to have the default pattern.  An
      empty or failing formatter keeps whatever pattern the logger had before. */
  lemma HistoryFreeIff(v: LoggerView, d: LogDefine)
    ensures Configured(v, d) == Configured(DEFAULT_VIEW, d) <==> Usable(d.formatter) || v.pattern == DEFAULT_PATTERN
  {
    hide Usable;
    if v.pattern != DEFAULT_PATTERN && !Usable(d.formatter) {
      assert Configured(v, d).pattern == v.pattern;
    }
  }

  /** With usable formatters, reconciling step by step ends where configuring fresh
      loggers from scratch would. */
  lemma IncrementalEqualsFresh(vs: map<string, LoggerView>, oldVal: DefineSet, newVal: DefineSet, d: LogDefine)
    requires AllMatch(vs, oldVal) && d in newVal && Usable(d.formatter)
    ensures d.name in Reconcile(vs, oldVal, newVal) && d.name in Reconcile(map[], [], newVal)
    ensures Reconcile(vs, oldVal, newVal)[d.name] == Reconcile(map[], [], newVal)[d.name]
  {
    ReconcileCorrect(vs, oldVal, newVal);
    ReconcileCorrect(map[], [], newVal);
    var v, w := Reconcile(vs, oldVal, newVal)[d.name], Reconcile(map[], [], newVal)[d.name];
    MatchesIffStable(v, d);
    MatchesIffStable(w, d);
    HistoryFreeIff(v, d);
    HistoryFreeIff(w, d);
  }

  // ---------------------------------------------------------------- runs

  // The "logs" variable and what the loggers show.
  datatype LogsState = LogsState(val: DefineSet, views: map<string, LoggerView>)

  // setValue with the reconciling listener: nothing happens when the value is the same.
  function SetLogs(st: LogsState, v: DefineSet): LogsState {
    if st.val == v then st else LogsState(v, Reconcile(st.views, st.val, v))
  }

  function RunLogs(st: LogsState, vals: seq<DefineSet>): LogsState
    decreases vals
  {
    if vals == [] then st else RunLogs(SetLogs(st, vals[0]), vals[1..])
  }

  predicate Names(vals: seq<DefineSet>, n: string) {
    exists k :: 0 <= k < |vals| && Find(vals[k], n).Some?
  }

  predicate Silent(vs: map<string, LoggerView>, n: string) {
    n in vs && vs[n].level == 0 && vs[n].appenders == []
  }

  lemma SetLogsStep(st: LogsState, v: DefineSet)
    requires AllMatch(st.views, st.val)
    ensures AllMatch(SetLogs(st, v).views, v) && SetLogs(st, v).val == v
    ensures forall n :: Find(v, n).None? && Find(st.val, n).Some? ==> Silent(SetLogs(st, v).views, n)
    ensures forall n :: Find(v, n).None? && Find(st.val, n).None? ==> Lookup(SetLogs(st, v).views, n) == Lookup(st.views, n)
  {
    if st.val != v {
      ReconcileCorrect(st.views, st.val, v);
      var ws := Reconcile(st.views, st.val, v);
      forall n | Find(v, n).None? && Find(st.val, n).Some? ensures Silent(ws, n) {
        assert Lookup(ws, n) == Some(LoggerView(0, ViewIn(st.views, n).pattern, []));
      }
    }
  }

  /** Over every run of configurations: at the end the loggers match the last one; a
      logger configured at some time but no longer is silent; all others are untouched. */
  lemma {:induction false} RunLogsCorrect(st: LogsState, vals: seq<DefineSet>)
    requires AllMatch(st.views, st.val)
    ensures var end := RunLogs(st, vals);
      AllMatch(end.views, end.val) && end.val == (if vals == [] then st.val else vals[|vals| - 1])
    ensures forall n :: Find(RunLogs(st, vals).val, n).None? && (Find(st.val, n).Some? || Names(vals, n)) ==>
      Silent(RunLogs(st, vals).views, n)
    ensures forall n :: Find(st.val, n).None? && !Names(vals, n) ==>
      Lookup(RunLogs(st, vals).views, n) == Lookup(st.views, n)
    decreases vals
  {
    if vals != [] {
      var next := SetLogs(st, vals[0]);
      SetLogsStep(st, vals[0]);
      RunLogsCorrect(next, vals[1..]);
    }
  }

  // The last usable formatter text a run gives n, or the pattern n had before.
  function LastPattern(pattern: string, vals: seq<DefineSet>, n: string): string
    decreases vals
  {
    if vals == [] then pattern
    else
      match Find(vals[0], n)
      case Some(d) => LastPattern(if Usable(d.formatter) then d.formatter else pattern, vals[1..], n)
      case None => LastPattern(pattern, vals[1..], n)
  }

  lemma PatternStep(st: LogsState, v: DefineSet, n: string)
    requires AllMatch(st.views, st.val)
    ensures ViewIn(SetLogs(st, v).views, n).pattern == LastPattern(ViewIn(st.views, n).pattern, [v], n)
  {
    hide Usable;
    ReconcileAt(st.views, st.val, v, n);
    FindNone(v, n);
    FindNone(st.val, n);
    hide Reconcile, Find;
    assert [v][1..] == [];
  }

  /** Over every run of configurations the pattern of every logger is the last usable
      formatter text it was given, or the one it had: unusable texts, retirement and
      skipped definitions leave no trace. */
  lemma {:induction false} RunPatterns(st: LogsState, vals: seq<DefineSet>, n: string)
    requires AllMatch(st.views, st.val)
    ensures ViewIn(RunLogs(st, vals).views, n).pattern == LastPattern(ViewIn(st.views, n).pattern, vals, n)
    decreases vals
  {
    if vals != [] {
      PatternStep(st, vals[0], n);
      SetLogsStep(st, vals[0]);
      assert [vals[0]][1..] == [];
      hide SetLogs, Usable, AllMatch;
      RunPatterns(SetLogs(st, vals[0]), vals[1..], n);
    }
  }

  function Only(d: LogDefine): DefineSet {
    [d]
  }

  lemma MessageUsable()
    ensures Usable("%m") && !Usable("")
  {
    var ts := [Dir("m", "")];
    assert ts[1..] == [];
    assert Spellable(ts) && Print(ts) == "%m" + "" == "%m";
    ParserInvertsPrinterIff(ts);
  }

  // An empty formatter keeps the pattern of an earlier configuration, not the default one.
  lemma KeptFormatter(name: string, level: Level)
    ensures var none: DefineSet := [];
      var d, e := LogDefine(name, level, "%m", []), LogDefine(name, level, "", []);
      ViewIn(RunLogs(LogsState(none, map[]), [Only(d), Only(e)]).views, name).pattern == "%m" &&
      ViewIn(RunLogs(LogsState(none, map[]), [Only(e)]).views, name).pattern == DEFAULT_PATTERN != "%m"
  {
    var none: DefineSet := [];
    var d, e := LogDefine(name, level, "%m", []), LogDefine(name, level, "", []);
    MessageUsable();
    RunPatterns(LogsState(none, map[]), [Only(d), Only(e)], name);
    RunPatterns(LogsState(none, map[]), [Only(e)], name);
    assert [Only(d), Only(e)][1..] == [Only(e)] && [Only(e)][1..] == [];
    assert |"%m"| == 2 && |DEFAULT_PATTERN| > 2;
    hide RunLogs, Usable;
    assert Find(Only(d), name) == Some(d) && Find(Only(e), name) == Some(e);
    assert LastPattern("%m", [Only(e)], name) == LastPattern("%m", [], name) == "%m";
  }

  /** A logger the configuration has dropped logs exactly as the root logger does, under
      the root's own name and with the root's appenders. */
  lemma DroppedLogsThroughRoot(mgr: LoggerManager, vs: map<string, LoggerView>, n: string,
                               l: Level, e: Event, strftime: (string, Time) -> string)
    requires mgr.Shows(vs) && Silent(vs, n) && n != "root"
    ensures mgr.loggers[n].Good() && mgr.root.Good() && mgr.loggers[n].root == mgr.root
    ensures mgr.loggers[n].Delegated(l, e, strftime) == mgr.root.Delegated(l, e, strftime)
    ensures mgr.loggers[n].Effects(l, e, strftime) == mgr.root.Effects(l, e, strftime)
  {
    var logger := mgr.loggers[n];
    assert mgr.Files(logger, n, vs[n]) && mgr.Files(mgr.root, "root", vs["root"]);
    assert logger.Shows(vs[n]) && mgr.root.Shows(vs["root"]);
    assert logger != mgr.root;
    assert Views(logger.appenders) == [];
    SilentDelegates(logger, l, e, strftime);
  }
}
