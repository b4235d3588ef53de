/** Appenders, loggers and the logger manager as objects sharing one heap. */
module Logging {
  import opened Basics
  import opened Compiler
  import opened Formatter

  datatype Kind = Stdout | File(path: string)

  // What reaches the outside: a line written by an appender, or its file reopened.
  datatype Effect = Write(writer: LogAppender, text: string) | Reopen(file: LogAppender)

  // The outside of the program: what was written so far, and the C library's strftime.
  class World {
    var trace: seq<Effect>
    const strftime: (string, Time) -> string

    constructor (strftime: (string, Time) -> string)
      ensures trace == [] && this.strftime == strftime
    {
      this.strftime := strftime;
      trace := [];
    }
  }

  // now >= (m_lastTime + 3), in 64 bits.
  predicate Due(lastTime: Time, now: Time) {
    now >= (lastTime + 3) % TWO_64
  }

  function WritesOf(trace: seq<Effect>): seq<Effect> {
    if trace == [] then []
    else (if trace[0].Write? then [trace[0]] else []) + WritesOf(trace[1..])
  }

  lemma {:induction false} WritesConcat(s: seq<Effect>, t: seq<Effect>)
    ensures WritesOf(s + t) == WritesOf(s) + WritesOf(t)
  {
    if s == [] {
      assert s + t == t;
    } else {
      assert (s + t)[1..] == s[1..] + t;
      WritesConcat(s[1..], t);
      Assoc(if s[0].Write? then [s[0]] else [], WritesOf(s[1..]), WritesOf(t));
    }
  }

  // What decides the line an appender writes: its level and the items of its formatter.
  datatype Outlet = Outlet(writer: LogAppender, level: Level, items: seq<Item>)

  function OutletLine(o: Outlet, c: Context): seq<Effect> {
    if c.level >= o.level then [Write(o.writer, RenderAll(o.items, c))] else []
  }

  // The lines a list of appenders writes, in list order.
  function OutletLines(os: seq<Outlet>, c: Context): seq<Effect> {
    if os == [] then [] else OutletLine(os[0], c) + OutletLines(os[1..], c)
  }

  // ---------------------------------------------------------------- LogAppender

  // Kind, level, whether the formatter is the appender's own, and the pattern in use.
  datatype AppenderView = AppenderView(kind: Kind, level: Level, hasLevel: bool, own: bool, pattern: string)

  class LogAppender {
    const kind: Kind
    var level: Level
    var formatter: LogFormatter?
    var hasFormatter: bool
    var hasLevel: bool
    var lastTime: Time
    ghost var owner: Logger?  // the logger it was last attached to

    constructor (kind: Kind)
      ensures this.kind == kind && level == 1 && formatter == null && !hasFormatter && !hasLevel
      ensures lastTime == 0 && owner == null
    {
      this.kind := kind;
      level, formatter, hasFormatter, hasLevel, lastTime, owner := 1, null, false, false, 0, null;
    }

    method SetFormatter(f: LogFormatter?)
      modifies this`formatter, this`hasFormatter
      ensures formatter == f && hasFormatter == (f != null)
    {
      formatter := f;
      hasFormatter := formatter != null;
    }

    method SetHasFormatter(v: bool)
      modifies this`hasFormatter
      ensures hasFormatter == v
    {
      hasFormatter := v;
    }

    method SetLevel(l: Level)
      modifies this`level, this`hasLevel
      ensures level == l && hasLevel
    {
      level := l;
      hasLevel := true;
    }

    ghost function View(): AppenderView
      requires formatter != null
      reads this`level, this`hasLevel, this`hasFormatter, this`formatter
    {
      AppenderView(kind, level, hasLevel, hasFormatter, formatter.pattern)
    }

    ghost function Out(): Outlet
      requires formatter != null
      reads this`level, this`formatter
    {
      Outlet(this, level, formatter.items)
    }

    /** Both log overrides.  A file appender first reopens its file when the event is at
        least three seconds past the last reopen. */
    method Log(name: string, l: Level, e: Event, world: World)
      requires formatter != null
      modifies this`lastTime, world
      ensures var reopens := kind.File? && l >= level && e.time >= (old(lastTime) + 3) % TWO_64;
        && world.trace == old(world.trace) + (if reopens then [Reopen(this)] else []) + OutletLine(old(Out()), Context(name, l, e, world.strftime))
        && lastTime == if reopens then e.time else old(lastTime)
      ensures WritesOf(world.trace) == WritesOf(old(world.trace)) + OutletLine(old(Out()), Context(name, l, e, world.strftime))
    {
      var c := Context(name, l, e, world.strftime);
      ghost var line := OutletLine(Out(), c);
      if l >= level {
        if kind.File? && Due(lastTime, e.time) {
          world.trace := world.trace + [Reopen(this)];
          lastTime := e.time;
        }
        var text := formatter.Format(c);
        world.trace := world.trace + [Write(this, text)];
      }
      WritesOfLog(old(world.trace), this, line, world.trace);
    }
  }

  ghost function Views(apps: seq<LogAppender>): (vs: seq<AppenderView>)
    requires forall a :: a in apps ==> a.formatter != null
    reads apps`level, apps`hasLevel, apps`hasFormatter, apps`formatter
    ensures |vs| == |apps| && forall j :: 0 <= j < |apps| ==> vs[j] == apps[j].View()
  {
    if apps == [] then [] else [apps[0].View()] + Views(apps[1..])
  }

  ghost function Outlets(apps: seq<LogAppender>): (os: seq<Outlet>)
    requires forall a :: a in apps ==> a.formatter != null
    reads apps`level, apps`formatter
    ensures |os| == |apps| && forall j :: 0 <= j < |apps| ==> os[j] == apps[j].Out()
  {
    if apps == [] then [] else [apps[0].Out()] + Outlets(apps[1..])
  }

  // ---------------------------------------------------------------- Logger

  const DEFAULT_PATTERN := "%d{%Y-%m-%d %H:%M:%S}%T%t%T%F%T[%p]%T[%c]%T%f:%l%T%m%n"

  datatype LoggerView = LoggerView(level: Level, pattern: string, appenders: seq<AppenderView>)

  // The logger's pattern replaced; appenders with a pattern of their own keep it.
  function Repatterned(v: LoggerView, pattern: string): LoggerView {
    LoggerView(v.level, pattern, RepatternedAll(v.appenders, pattern))
  }

  function RepatternedAll(xs: seq<AppenderView>, pattern: string): (ys: seq<AppenderView>)
    ensures |ys| == |xs| && forall j :: 0 <= j < |xs| ==> ys[j] == if xs[j].own then xs[j] else xs[j].(pattern := pattern)
  {
    if xs == [] then [] else [if xs[0].own then xs[0] else xs[0].(pattern := pattern)] + RepatternedAll(xs[1..], pattern)
  }

  const DEFAULT_VIEW := LoggerView(1, DEFAULT_PATTERN, [])

  class Logger {
    const name: string
    const root: Logger?
    var level: Level
    var appenders: seq<LogAppender>
    var formatter: LogFormatter?

    constructor (name: string, root: Logger?)
      ensures this.name == name && this.root == root && level == 1 && appenders == []
      ensures Shows(DEFAULT_VIEW) && formatter != null && formatter.pattern == DEFAULT_PATTERN
    {
      this.name := name;
      this.root := root;
      level, appenders := 1, [];
      formatter := new LogFormatter(DEFAULT_PATTERN);
    }

    /** The inheritance invariant: every attached appender either has a formatter of its
        own or points to this logger's current formatter. */
    ghost predicate Inherits()
      reads this`appenders, this`formatter, appenders`owner, appenders`hasFormatter, appenders`formatter
    {
      forall a :: a in appenders ==>
        a.owner == this && if a.hasFormatter then a.formatter != null else a.formatter == formatter
    }

    // Inherits, with compiled formatters everywhere.
    ghost predicate Good()
      reads this`appenders, this`formatter, appenders`owner, appenders`hasFormatter, appenders`formatter
      ensures Good() ==> formatter != null && forall a :: a in appenders ==> a.formatter != null
    {
      Inherits() && formatter != null && formatter.Ready() &&
      forall a :: a in appenders ==> a.formatter.Ready()
    }

    ghost function View(): LoggerView
      requires formatter != null && forall a :: a in appenders ==> a.formatter != null
      reads this`level, this`formatter, this`appenders
      reads appenders`level, appenders`hasLevel, appenders`hasFormatter, appenders`formatter
    {
      LoggerView(level, formatter.pattern, Views(appenders))
    }

    // Good, and shows exactly v.
    ghost predicate Shows(v: LoggerView)
      reads this`level, this`formatter, this`appenders
      reads appenders`owner, appenders`level, appenders`hasLevel, appenders`hasFormatter, appenders`formatter
    {
      Good() && View() == v
    }

    method SetLevel(l: Level)
      modifies this`level
      ensures level == l
      ensures old(Good()) ==> Good() && View() == old(View()).(level := l)
    {
      level := l;
    }

    method ClearAppender()
      modifies this`appenders
      ensures appenders == [] && Inherits()
      ensures old(Good()) ==> Good() && View() == old(View()).(appenders := [])
    {
      appenders := [];
    }

    /** An appender without a formatter takes the logger's and counts as inheriting. */
    method AddAppender(a: LogAppender)
      modifies this`appenders, a`formatter, a`hasFormatter, a`owner
      ensures appenders == old(appenders) + [a] && a.owner == this
      ensures if old(a.formatter) == null then a.formatter == formatter && !a.hasFormatter
              else a.formatter == old(a.formatter) && a.hasFormatter == old(a.hasFormatter)
      ensures old(Inherits()) ==> (Inherits() <==> old(a.formatter == null || a.hasFormatter || a.formatter == formatter))
      ensures old(Good() && a !in appenders && (a.formatter == null || (a.hasFormatter && a.formatter.Ready()))) ==>
        Good() && View() == old(View()).(appenders := old(View()).appenders + [a.View()])
    {
      hide Views, LogFormatter.Ready;
      if a.formatter == null {
        a.SetFormatter(formatter);
        a.SetHasFormatter(false);
      }
      appenders := appenders + [a];
      a.owner := this;
    }

    // Removes the first occurrence, if any.
    method DelAppender(a: LogAppender)
      modifies this`appenders
      ensures if a in old(appenders) then
          exists k :: 0 <= k < |old(appenders)| && old(appenders)[k] == a && a !in old(appenders)[..k] &&
            appenders == old(appenders)[..k] + old(appenders)[k + 1..]
        else appenders == old(appenders)
      ensures old(Inherits()) ==> Inherits()
    {
      var k := 0;
      while k < |appenders| && appenders[k] != a
        invariant 0 <= k <= |appenders| && a !in appenders[..k]
      {
        k := k + 1;
      }
      if k < |appenders| {
        appenders := appenders[..k] + appenders[k + 1..];
      }
    }

    /** Replaces the logger's formatter and hands it to every inheriting appender; an
        appender's own formatter is never overwritten. */
    method SetFormatter(f: LogFormatter?)
      modifies this`formatter, appenders`formatter, appenders`hasFormatter
      ensures formatter == f
      ensures forall a :: a in appenders ==>
        a.hasFormatter == old(a.hasFormatter) && a.formatter == if old(a.hasFormatter) then old(a.formatter) else f
      ensures old(Inherits()) ==> Inherits()
    {
      formatter := f;
      var j := 0;
      while j < |appenders|
        invariant 0 <= j <= |appenders| && formatter == f
        invariant forall a :: a in appenders ==> a.hasFormatter == old(a.hasFormatter)
        invariant forall a :: a in appenders[..j] ==> a.formatter == if old(a.hasFormatter) then old(a.formatter) else f
        invariant forall a :: a in appenders ==> a.formatter == old(a.formatter) || (!old(a.hasFormatter) && a.formatter == f)
      {
        var a := appenders[j];
        if !a.hasFormatter {
          a.SetFormatter(f);
          a.SetHasFormatter(false);
        }
        j := j + 1;
      }
    }

    // A pattern that does not compile leaves everything as it was.
    method SetPattern(pattern: string)
      modifies this`formatter, appenders`formatter, appenders`hasFormatter
      ensures Failed(Compile(pattern)) ==>
        formatter == old(formatter) && forall a :: a in appenders ==> a.formatter == old(a.formatter) && a.hasFormatter == old(a.hasFormatter)
      ensures !Failed(Compile(pattern)) ==>
        formatter != null && fresh(formatter) && formatter.pattern == pattern && formatter.Ready() &&
        forall a :: a in appenders ==>
          a.hasFormatter == old(a.hasFormatter) && a.formatter == if old(a.hasFormatter) then old(a.formatter) else formatter
      ensures old(Inherits()) ==> Inherits()
      ensures old(Good()) ==>
        Good() && View() == if Failed(Compile(pattern)) then old(View()) else Repatterned(old(View()), pattern)
    {
      hide Failed, Compile, Repatterned, Logger.Good, Logger.View;
      var fmt := new LogFormatter(pattern);
      if !fmt.error {
        SetUsable(fmt);
      }
    }

    // SetFormatter with a compiled formatter, seen from outside.
    method SetUsable(f: LogFormatter)
      requires f.Ready()
      modifies this`formatter, appenders`formatter, appenders`hasFormatter
      ensures formatter == f
      ensures forall a :: a in appenders ==>
        a.hasFormatter == old(a.hasFormatter) && a.formatter == if old(a.hasFormatter) then old(a.formatter) else f
      ensures old(Inherits()) ==> Inherits()
      ensures old(Good()) ==> Good() && View() == Repatterned(old(View()), f.pattern)
    {
      hide LogFormatter.Ready;
      SetFormatter(f);
    }

    // ---------------------------------------------------------------- delivery

    // Only the root logger has no root, so delegation goes one step.
    ghost predicate Rooted() {
      root != null ==> root.root == null
    }

    // The lines this logger's own appenders write for an event.
    ghost function Delivery(l: Level, e: Event, strftime: (string, Time) -> string): seq<Effect>
      requires Good()
      reads this`level, this`formatter, this`appenders
      reads appenders`owner, appenders`level, appenders`hasFormatter, appenders`formatter
    {
      if l >= level then OutletLines(Outlets(appenders), Context(name, l, e, strftime)) else []
    }

    // What the event leads to through this logger: its own appenders, or the root's if it has none.
    ghost function Delegated(l: Level, e: Event, strftime: (string, Time) -> string): seq<Effect>
      requires Good() && (root != null ==> root.Good())
      reads this`level, this`formatter, this`appenders
      reads appenders`owner, appenders`level, appenders`hasFormatter, appenders`formatter
      reads (if root == null then {} else {root})`level, (if root == null then {} else {root})`formatter
      reads (if root == null then {} else {root})`appenders
      reads (if root == null then [] else root.appenders)`owner, (if root == null then [] else root.appenders)`level
      reads (if root == null then [] else root.appenders)`hasFormatter, (if root == null then [] else root.appenders)`formatter
    {
      if l >= level && appenders == [] && root != null then root.Delivery(l, e, strftime)
      else Delivery(l, e, strftime)
    }

    // What this logger's own appenders do for an event, reopening included.
    ghost function OwnEffects(l: Level, e: Event, strftime: (string, Time) -> string): seq<Effect>
      requires Good()
      reads this`level, this`formatter, this`appenders
      reads appenders`owner, appenders`level, appenders`hasFormatter, appenders`formatter, appenders`lastTime
    {
      if l >= level then Serve(Outlets(appenders), Times(appenders), Context(name, l, e, strftime)).effects else []
    }

    ghost function Effects(l: Level, e: Event, strftime: (string, Time) -> string): seq<Effect>
      requires Good() && (root != null ==> root.Good())
      reads *
    {
      if l >= level && appenders == [] && root != null then root.OwnEffects(l, e, strftime) else OwnEffects(l, e, strftime)
    }

    // The lines among the effects are the delegated ones.
    lemma EffectsWrite(l: Level, e: Event, strftime: (string, Time) -> string)
      requires Good() && (root != null ==> root.Good())
      ensures WritesOf(Effects(l, e, strftime)) == Delegated(l, e, strftime)
    {
      ServeWrites(Outlets(appenders), Times(appenders), Context(name, l, e, strftime));
      if root != null {
        ServeWrites(Outlets(root.appenders), Times(root.appenders), Context(root.name, l, e, strftime));
      }
      hide Serve, OutletLines;
    }

    /** An event below the logger's level goes nowhere.  Otherwise every attached appender
        whose level lets it through writes it once, in list order, having reopened its file
        if that was due; a logger without appenders hands the event to the root logger. */
    method Log(l: Level, e: Event, world: World)
      requires Rooted() && Good() && (root != null ==> root.Good())
      modifies world, appenders`lastTime
      modifies (if root == null then {} else set a | a in root.appenders)`lastTime
      ensures WritesOf(world.trace) == WritesOf(old(world.trace)) + old(Delegated(l, e, world.strftime))
      ensures world.trace == old(world.trace) + old(Effects(l, e, world.strftime))
      decreases root != null
    {
      hide WritesOf;
      if l >= level {
        if appenders != [] {
          ServeWrites(Outlets(appenders), Times(appenders), Context(name, l, e, world.strftime));
          LogEach(l, e, world);
          WritesConcat(old(world.trace), old(OwnEffects(l, e, world.strftime)));
        } else if root != null {
          root.Log(l, e, world);
        }
      }
    }

    method LogEach(l: Level, e: Event, world: World)
      requires forall a :: a in appenders ==> a.formatter != null
      modifies world, appenders`lastTime
      ensures var served := old(Serve(Outlets(appenders), Times(appenders), Context(name, l, e, world.strftime)));
        world.trace == old(world.trace) + served.effects && Times(appenders) == served.times
    {
      hide Serve, OutletLine, Reopening, StillOut, ServeRest;
      ghost var os, c := Outlets(appenders), Context(name, l, e, world.strftime);
      ghost var served := Serve(os, Times(appenders), c);
      ghost var done := [];
      var j := 0;
      ServeStart(os, Times(appenders), c);
      StillOutNow(appenders);
      while j < |appenders|
        invariant j <= |appenders| == |os| && StillOut(appenders, os)
        invariant world.trace == old(world.trace) + done
        invariant ServeRest(os, j, Times(appenders), done, served, c)
      {
        StillOutAt(appenders, os, j);
        ServeStep(os, j, Times(appenders), done, served, c);
        ghost var reopens := Reopening(os[j], appenders[j].lastTime, c);
        ghost var now := (if reopens then [Reopen(appenders[j])] else []) + OutletLine(os[j], c);
        LogAt(appenders[j], l, e, world);
        Assoc(old(world.trace), done, now);
        done := done + now;
        j := j + 1;
      }
      ServeEnd(os, j, Times(appenders), done, served, c);
    }

    method LogAt(a: LogAppender, l: Level, e: Event, world: World)
      requires a in appenders && a.formatter != null
      modifies world, a`lastTime
      ensures var c := Context(name, l, e, world.strftime);
        var reopens := Reopening(old(a.Out()), old(a.lastTime), c);
        world.trace == old(world.trace) + ((if reopens then [Reopen(a)] else []) + OutletLine(old(a.Out()), c)) &&
        Times(appenders) == if reopens then old(Times(appenders))[a := e.time] else old(Times(appenders))
    {
      hide WritesOf, OutletLine;
      a.Log(name, l, e, world);
    }
  }

  lemma StillOutNow(apps: seq<LogAppender>)
    requires forall a :: a in apps ==> a.formatter != null
    ensures StillOut(apps, Outlets(apps))
  {
  }

  lemma StillOutAt(apps: seq<LogAppender>, os: seq<Outlet>, j: nat)
    requires StillOut(apps, os) && j < |apps|
    ensures |apps| == |os| && apps[j].formatter != null && apps[j].Out() == os[j] && os[j].writer == apps[j]
  {
  }

  // What the appenders do for one event: their effects in order, and their last times afterwards.
  datatype Served = Served(effects: seq<Effect>, times: map<LogAppender, Time>)

  predicate Reopening(o: Outlet, lastTime: Time, c: Context) {
    o.writer.kind.File? && c.level >= o.level && Due(lastTime, c.event.time)
  }

  function Serve(os: seq<Outlet>, times: map<LogAppender, Time>, c: Context): Served
    requires forall o :: o in os ==> o.writer in times
  {
    if os == [] then Served([], times)
    else
      var a := os[0].writer;
      var reopens := Reopening(os[0], times[a], c);
      var rest := Serve(os[1..], if reopens then times[a := c.event.time] else times, c);
      Served((if reopens then [Reopen(a)] else []) + OutletLine(os[0], c) + rest.effects, rest.times)
  }

  ghost function Times(apps: seq<LogAppender>): map<LogAppender, Time>
    reads apps`lastTime
  {
    map a | a in apps :: a.lastTime
  }

  // The first j outlets have done what they do when times are the last times left.
  ghost predicate ServeRest(os: seq<Outlet>, j: nat, times: map<LogAppender, Time>, done: seq<Effect>, served: Served, c: Context) {
    j <= |os| && (forall o :: o in os ==> o.writer in times) &&
    var rest := Serve(os[j..], times, c);
    done + rest.effects == served.effects && rest.times == served.times
  }

  lemma ServeStart(os: seq<Outlet>, times: map<LogAppender, Time>, c: Context)
    requires forall o :: o in os ==> o.writer in times
    ensures ServeRest(os, 0, times, [], Serve(os, times, c), c)
  {
    assert os[0..] == os;
  }

  lemma ServeStep(os: seq<Outlet>, j: nat, times: map<LogAppender, Time>, done: seq<Effect>, served: Served, c: Context)
    requires j < |os| && ServeRest(os, j, times, done, served, c)
    ensures os[j].writer in times
    ensures var a := os[j].writer;
      var reopens := Reopening(os[j], times[a], c);
      ServeRest(os, j + 1, if reopens then times[a := c.event.time] else times,
                done + ((if reopens then [Reopen(a)] else []) + OutletLine(os[j], c)), served, c)
  {
    hide OutletLine, Reopening;
    assert os[j..][1..] == os[j + 1..];
    var a := os[j].writer;
    var reopens := Reopening(os[j], times[a], c);
    var rest := Serve(os[j + 1..], if reopens then times[a := c.event.time] else times, c);
    var now := if reopens then [Reopen(a)] else [];
    Assoc(done, now + OutletLine(os[j], c), rest.effects);
  }

  lemma ServeEnd(os: seq<Outlet>, j: nat, times: map<LogAppender, Time>, done: seq<Effect>, served: Served, c: Context)
    requires j == |os| && ServeRest(os, j, times, done, served, c)
    ensures served == Served(done, times)
  {
    assert os[j..] == [];
  }

  /** Besides the lines, serving an event only reopens files. */
  lemma {:induction false} ServeWrites(os: seq<Outlet>, times: map<LogAppender, Time>, c: Context)
    requires forall o :: o in os ==> o.writer in times
    ensures WritesOf(Serve(os, times, c).effects) == OutletLines(os, c)
  {
    if os != [] {
      var a := os[0].writer;
      var reopens := Reopening(os[0], times[a], c);
      var next := if reopens then times[a := c.event.time] else times;
      ServeWrites(os[1..], next, c);
      LineWrites(os[0], reopens, c);
      hide WritesOf, Reopening, OutletLine;
      WritesConcat((if reopens then [Reopen(a)] else []) + OutletLine(os[0], c), Serve(os[1..], next, c).effects);
    }
  }

  lemma LineWrites(o: Outlet, reopens: bool, c: Context)
    ensures WritesOf((if reopens then [Reopen(o.writer)] else []) + OutletLine(o, c)) == OutletLine(o, c)
  {
    var line := OutletLine(o, c);
    assert [] + line == line && [] + [Reopen(o.writer)] == [Reopen(o.writer)];
    WritesOfLog([], o.writer, line, (if reopens then [Reopen(o.writer)] else []) + line);
  }

  /** An outlet writes for the event iff its level lets it through. */
  lemma {:induction false} WritesIff(os: seq<Outlet>, c: Context, a: LogAppender)
    ensures (exists text :: Write(a, text) in OutletLines(os, c)) <==>
      exists j :: 0 <= j < |os| && os[j].writer == a && c.level >= os[j].level
  {
    if os != [] {
      WritesIff(os[1..], c, a);
      assert forall j :: 0 < j < |os| ==> os[j] == os[1..][j - 1];
      assert forall text :: Write(a, text) in OutletLines(os, c) <==>
        Write(a, text) in OutletLine(os[0], c) || Write(a, text) in OutletLines(os[1..], c);
      if c.level >= os[0].level && os[0].writer == a {
        assert Write(a, RenderAll(os[0].items, c)) in OutletLine(os[0], c);
      }
    }
  }

  // An outlet of a compiled formatter writes what its pattern compiles to.
  lemma OutletText(a: LogAppender, c: Context)
    requires a.formatter != null && a.formatter.Ready() && c.level >= a.level
    ensures OutletLine(a.Out(), c) == [Write(a, Output(a.formatter.pattern, c))]
  {
  }

  /** A logger without level and appenders passes every event on: logging through it is
      logging to the root. */
  lemma SilentDelegates(logger: Logger, l: Level, e: Event, strftime: (string, Time) -> string)
    requires logger.Good() && logger.level == 0 && logger.appenders == []
    requires logger.root != null && logger.root.Good() && logger.root.root == null
    ensures logger.Delegated(l, e, strftime) == logger.root.Delegated(l, e, strftime)
    ensures logger.Effects(l, e, strftime) == logger.root.Effects(l, e, strftime)
  {
  }

  // The appenders would still write what they would have written when os was recorded.
  ghost predicate StillOut(apps: seq<LogAppender>, os: seq<Outlet>)
    reads apps`level, apps`formatter
  {
    |apps| == |os| && forall k :: 0 <= k < |apps| ==> apps[k].formatter != null && apps[k].Out() == os[k]
  }

  // The writes of a trace that one appender extended.
  lemma WritesOfLog(before: seq<Effect>, a: LogAppender, line: seq<Effect>, after: seq<Effect>)
    requires after == before + line || after == before + [Reopen(a)] + line
    requires line == [] || (|line| == 1 && line[0].Write?)
    ensures WritesOf(after) == WritesOf(before) + line
  {
    WritesConcat(before, [Reopen(a)]);
    WritesConcat(before, line);
    WritesConcat(before + [Reopen(a)], line);
    assert line != [] ==> line[1..] == [];
    assert [Reopen(a)][1..] == [];
    assert WritesOf(line) == line;
    assert WritesOf([Reopen(a)]) == [];
  }

  // ---------------------------------------------------------------- LoggerManager

  // The view of a logger that getLogger would return.
  function ViewIn(vs: map<string, LoggerView>, name: string): LoggerView {
    if name in vs then vs[name] else DEFAULT_VIEW
  }

  // A logger object with the objects it holds: its formatter, its appenders, and theirs.
  datatype Parts = Parts(logger: Logger, formatter: LogFormatter?, appenders: seq<LogAppender>, formatters: seq<LogFormatter?>)

  ghost function Formatters(apps: seq<LogAppender>): (fs: seq<LogFormatter?>)
    reads apps`formatter
    ensures |fs| == |apps| && forall j :: 0 <= j < |apps| ==> fs[j] == apps[j].formatter
  {
    if apps == [] then [] else [apps[0].formatter] + Formatters(apps[1..])
  }

  ghost function PartsOf(l: Logger): (p: Parts)
    reads l`formatter, l`appenders, l.appenders`formatter
    ensures p.logger == l
  {
    Parts(l, l.formatter, l.appenders, Formatters(l.appenders))
  }

  // The logger called n, if there was one, holds the very same objects.
  ghost predicate SameParts(before: map<string, Parts>, after: map<string, Parts>, n: string) {
    n in before ==> n in after && after[n] == before[n]
  }

  // The root logger, with one appender on standard output.
  method NewRoot() returns (r: Logger, out: LogAppender)
    ensures fresh(r) && fresh(out) && r.name == "root" && r.root == null && r.appenders == [out]
    ensures r.Shows(DEFAULT_VIEW.(appenders := [AppenderView(Stdout, 1, false, false, DEFAULT_PATTERN)]))
  {
    hide Logger.Good, Logger.View;
    r := new Logger("root", null);
    out := new LogAppender(Stdout);
    r.AddAppender(out);
    assert [] + [out.View()] == [out.View()];
  }

  class LoggerManager {
    const root: Logger
    var loggers: map<string, Logger>
    ghost var Repr: set<object>  // the manager, its loggers and their appenders

    // l is filed under its own name, delegates to the root unless it is the root, and shows v.
    ghost predicate Files(l: Logger, n: string, v: LoggerView)
      reads l`level, l`formatter, l`appenders
      reads l.appenders`owner, l.appenders`level, l.appenders`hasLevel, l.appenders`hasFormatter, l.appenders`formatter
    {
      l.name == n && (l == root || l.root == root) && l.Shows(v)
    }

    // l and its appenders belong to the manager.
    ghost predicate Owns(l: Logger)
      reads this`Repr, l`appenders
    {
      l in Repr && forall a :: a in l.appenders ==> a in Repr
    }

    /** The abstraction: the manager's loggers are exactly those named in vs, each filed
        under its own name (so distinct names are distinct loggers), sharing no appender,
        inheriting formatters properly, and showing the view vs gives it. */
    ghost predicate Shows(vs: map<string, LoggerView>)
      reads this, Repr
    {
      this in Repr && "root" in loggers && loggers["root"] == root && root.root == null && loggers.Keys == vs.Keys &&
      (forall n :: n in loggers ==> loggers[n] in Repr && Owns(loggers[n])) &&
      forall n :: n in loggers ==> Files(loggers[n], n, vs[n])
    }

    // Every logger of ls is still the one filed under its name.
    ghost predicate Extends(ls: map<string, Logger>)
      reads this`loggers
    {
      forall n :: n in ls ==> n in loggers && loggers[n] == ls[n]
    }

    // The objects behind the names.
    ghost function Holdings(): map<string, Parts>
      reads this`loggers, loggers.Values, set l, j | l in loggers.Values && 0 <= j < |l.appenders| :: l.appenders[j]
    {
      map n | n in loggers :: PartsOf(loggers[n])
    }

    constructor ()
      ensures Shows(map["root" := DEFAULT_VIEW.(appenders := [AppenderView(Stdout, 1, false, false, DEFAULT_PATTERN)])])
      ensures fresh(Repr)
    {
      hide Logger.Shows;
      var r, out := NewRoot();
      root := r;
      loggers := map["root" := r];
      Repr := {this, r, out};
    }

    /** The logger of that name, created on first use with the default formatter, no
        appenders and the root to delegate to. */
    method GetLogger(name: string, ghost vs: map<string, LoggerView>) returns (l: Logger)
      requires Shows(vs)
      modifies this`loggers, this`Repr
      ensures Shows(vs[name := ViewIn(vs, name)]) && l == loggers[name]
      ensures if name in old(loggers) then loggers == old(loggers)
              else fresh(l) && loggers == old(loggers)[name := l]
      ensures old(Repr) <= Repr && forall o :: o in Repr ==> o in old(Repr) || fresh(o)
    {
      hide Logger.Shows;
      if name in loggers {
        l := loggers[name];
        assert vs[name := vs[name]] == vs;
      } else {
        l := new Logger(name, root);
        loggers := loggers[name := l];
        Repr := Repr + {l};
      }
    }

    // Every logger of the manager is good, and so is the root it may delegate to.
    lemma AllGood(logger: Logger, vs: map<string, LoggerView>)
      requires Shows(vs) && logger in loggers.Values
      ensures logger.Good() && root.Good() && logger.Rooted() && (logger.root != null ==> logger.root == root)
      ensures Owns(logger) && Owns(root)
    {
      assert Files(root, "root", vs["root"]);
      assert exists n :: n in loggers && loggers[n] == logger && Files(logger, n, vs[n]) && Owns(logger);
    }

    method LogOn(logger: Logger, l: Level, e: Event, world: World)
      requires logger.Rooted() && logger.Good() && (logger.root != null ==> logger.root.Good() && Owns(logger.root)) && Owns(logger)
      modifies world, (set a: LogAppender | a in Repr)`lastTime
      ensures world.trace == old(world.trace) + old(logger.Effects(l, e, world.strftime))
    {
      hide WritesOf, Logger.Good, Logger.Rooted, Logger.Delegated, Logger.Effects;
      logger.Log(l, e, world);
    }

    /** Logging through any of the manager's loggers, the root included: the trace grows by
        what the appenders do that the event is delegated to, and no logger changes. */
    method LogThrough(logger: Logger, l: Level, e: Event, world: World, ghost vs: map<string, LoggerView>)
      requires Shows(vs) && logger in loggers.Values
      modifies world, (set a: LogAppender | a in Repr)`lastTime
      ensures Shows(vs)
      ensures world.trace == old(world.trace) + old(logger.Effects(l, e, world.strftime))
    {
      AllGood(logger, vs);
      hide Files, Owns, Logger.Good, Logger.Rooted, Logger.Effects;
      LogOn(logger, l, e, world);
    }
  }
}
