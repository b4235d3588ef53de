/** The "logs" variable with its reconciling listener, from YAML text to the loggers. */
module LogsVariable {
  import opened Basics
  import opened Yaml
  import opened Compiler
  import opened Logging
  import opened LogConfig
  import opened Reconciling
  import opened DefineCast
  import DefineReads
  import opened Registry
  import Config

  // The set cast on text; load is YAML::Load and throws on text that is not YAML.
  function FromText(text: string, load: string -> Result<Node>): (r: Result<DefineSet>)
    ensures r.Ok? ==> AllAppliable(r.value)
  {
    match load(text)
    case Thrown => Thrown
    case Ok(node) =>
      match SetFrom(node, 0, [])
      case Thrown => Thrown
      case Ok(s) =>
        ReadSetsAreSafe(node);
        Ok(s)
  }

  /** A text converts to a set iff it loads, every item of it asks for a definition, and the
      set holds exactly the first definition of every name. */
  lemma FromTextIff(text: string, load: string -> Result<Node>, s: DefineSet)
    ensures FromText(text, load) == Ok(s) <==>
      load(text).Ok? && exists ds ::
        DefineReads.AllDefine(load(text).value, ds) && forall d :: d in s <==> DefineReads.FirstOfName(ds, d)
  {
    hide SetFrom, DefineReads.AllDefine, DefineReads.FirstOfName;
    if load(text).Ok? {
      DefineReads.SetFromIff(load(text).value, s);
    }
  }

  // The sets the convertible texts stand for.
  function Parsed(texts: seq<string>, load: string -> Result<Node>): seq<DefineSet> {
    if texts == [] then []
    else (match FromText(texts[0], load) case Ok(s) => [s] case Thrown => []) + Parsed(texts[1..], load)
  }

  // The value after setting from a text.
  function NextValue(val: DefineSet, text: string, load: string -> Result<Node>): DefineSet {
    match FromText(text, load)
    case Ok(v) => v
    case Thrown => val
  }

  function SetFromText(st: LogsState, text: string, load: string -> Result<Node>): LogsState {
    SetLogs(st, NextValue(st.val, text, load))
  }

  function SetFromNode(st: LogsState, path: string, text: string, load: string -> Result<Node>): LogsState {
    if path == "logs" then SetFromText(st, text, load) else st
  }

  lemma ConvertedIsStep(was: Config.VarState<DefineSet>, fromStr: string -> Result<DefineSet>, text: string, load: string -> Result<Node>)
    requires fromStr(text) == FromText(text, load)
    ensures Config.Converted(was, fromStr, text) == Config.Step(was, Config.SetValue(NextValue(was.val, text, load)))
    ensures NextValue(was.val, text, load) != was.val ==> AllAppliable(NextValue(was.val, text, load))
  {
    SameValue(was);
    hide Config.Step;
  }

  // The value of "logs" after setting the variable called path from a text.
  function NodeValue(val: DefineSet, path: string, text: string, load: string -> Result<Node>): DefineSet {
    if path == "logs" then NextValue(val, text, load) else val
  }

  lemma SetFromNodeIs(st: LogsState, path: string, text: string, load: string -> Result<Node>)
    ensures SetFromNode(st, path, text, load) == SetLogs(st, NodeValue(st.val, path, text, load))
    ensures NodeValue(st.val, path, text, load) != st.val ==> AllAppliable(NodeValue(st.val, path, text, load))
    ensures SetLogs(st, NodeValue(st.val, path, text, load)).val == NodeValue(st.val, path, text, load)
  {
    hide FromText, Reconcile;
  }

  lemma SameValue(was: Config.VarState<DefineSet>)
    ensures Config.Step(was, Config.SetValue(was.val)) == was
  {
  }

  // Every setting in turn leaves the definition of n as it is.
  predicate Steady(val: DefineSet, vals: seq<DefineSet>, n: string)
    decreases vals
  {
    vals == [] || (Find(val, n) == Find(vals[0], n) && Steady(vals[0], vals[1..], n))
  }

  // The call the reconciling listener gets when v is set, if any.
  lemma NewCall(was: Config.VarState<DefineSet>, v: DefineSet, id: nat)
    requires Config.Ordered(was.cbs, was.last) && id in was.cbs
    ensures var now, k := Config.Step(was, Config.SetValue(v)), |was.notices|;
      k <= |now.notices| && now.cbs == was.cbs && now.last == was.last && now.val == v &&
      Config.Told(now.notices[k..], id) == if was.val == v then [] else [(was.val, v)]
  {
    if was.val != v {
      var calls := Config.Announce(was.cbs, was.val, v);
      assert (was.notices + calls)[|was.notices|..] == calls;
      Config.ToldOnce(was.cbs, was.last, id, was.val, v);
    } else {
      assert was.notices[|was.notices|..] == [];
    }
  }

  lemma NoneMatch(vs: map<string, LoggerView>)
    ensures AllMatch(vs, [])
  {
  }

  // The registered variable "logs" and its reconciling listener.
  class LogsVar {
    const mgr: LoggerManager
    const cfg: Config.ConfigVar<DefineSet>
    const id: nat  // of the reconciling listener

    // The listener is registered, and the variable is apart from the loggers.
    ghost predicate Listens()
      reads mgr, cfg, cfg.ids
    {
      cfg !in mgr.Repr && cfg.ids !in mgr.Repr && id in cfg.cbs && Config.Ordered(cfg.cbs, cfg.ids.last)
    }

    // The variable and the manager's loggers are in state st, and the loggers match the value.
    ghost predicate Holds(st: LogsState)
      reads mgr, mgr.Repr, cfg, cfg.ids
    {
      Listens() && cfg.val == st.val && mgr.Shows(st.views) && AllMatch(st.views, st.val)
    }

    lemma Before(st: LogsState)
      requires Holds(st)
      ensures var was := cfg.State(); Config.Ordered(was.cbs, was.last) && id in was.cbs && was.val == st.val
    {
    }

    lemma Matching(st: LogsState)
      requires Holds(st)
      ensures AllMatch(st.views, st.val) && cfg.val == st.val
    {
    }

    // Registers the listener on the variable.
    constructor (mgr: LoggerManager, cfg: Config.ConfigVar<DefineSet>, ghost vs: map<string, LoggerView>)
      requires mgr.Shows(vs) && cfg.val == [] && Config.Ordered(cfg.cbs, cfg.ids.last)
      requires cfg !in mgr.Repr && cfg.ids !in mgr.Repr
      modifies cfg`cbs, cfg.ids
      ensures this.mgr == mgr && this.cfg == cfg && Holds(LogsState([], vs))
      ensures cfg.State() == Config.Step(old(cfg.State()), Config.AddListener)
    {
      hide LoggerManager.Shows;
      NoneMatch(vs);
      var k := cfg.AddListener();
      this.mgr, this.cfg, this.id := mgr, cfg, k;
    }

    // Runs the listener on the call it got, if any, when v was set in state was.
    method Hear(k: nat, note: Event, world: World, ghost was: Config.VarState<DefineSet>, ghost v: DefineSet, ghost st: LogsState)
      requires Listens() && mgr.Shows(st.views) && AllMatch(st.views, st.val) && world !in mgr.Repr
      requires Config.Ordered(was.cbs, was.last) && id in was.cbs && was.val == st.val && k == |was.notices|
      requires cfg.State() == Config.Step(was, Config.SetValue(v)) && (v != st.val ==> AllAppliable(v))
      modifies mgr.Repr, world
      ensures Holds(SetLogs(st, v)) && cfg.State() == old(cfg.State())
      ensures st.val == v ==> world.trace == old(world.trace)
      ensures st.val != v ==>
        world.trace == old(world.trace) + old(Announcement(mgr, st.views, note, world.strftime))
      ensures mgr.Extends(old(mgr.loggers))
      ensures forall n :: Find(st.val, n) == Find(v, n) ==> SameParts(old(mgr.Holdings()), mgr.Holdings(), n)
      ensures old(mgr.Repr) <= mgr.Repr && forall o :: o in mgr.Repr ==> o in old(mgr.Repr) || fresh(o)
    {
      hide Reconcile, AllMatch, LoggerManager.Shows, Announcement, PartsOf, Config.Step;
      SetLogsStep(st, v);
      NewCall(was, v, id);
      var calls := Config.Told(cfg.notices[k..], id);
      if calls != [] {
        OnLogsChanged(mgr, calls[0].0, calls[0].1, note, world, st.views);
      }
    }

    /** setValue with the reconciling listener: the loggers match the value before and after,
        and a change, but nothing else, is announced through the root logger. */
    method SetValue(v: DefineSet, note: Event, world: World, ghost st: LogsState)
      requires Holds(st) && AllAppliable(v) && world !in mgr.Repr
      modifies cfg, mgr.Repr, world
      ensures Holds(SetLogs(st, v)) && cfg.State() == Config.Step(old(cfg.State()), Config.SetValue(v))
      ensures old(cfg.val) == v ==> world.trace == old(world.trace)
      ensures old(cfg.val) != v ==>
        world.trace == old(world.trace) + old(Announcement(mgr, st.views, note, world.strftime))
      ensures mgr.Extends(old(mgr.loggers))
      ensures forall n :: Find(old(cfg.val), n) == Find(v, n) ==> SameParts(old(mgr.Holdings()), mgr.Holdings(), n)
      ensures old(mgr.Repr) <= mgr.Repr && forall o :: o in mgr.Repr ==> o in old(mgr.Repr) || fresh(o)
    {
      hide SetLogs, AllMatch, LoggerManager.Shows, Announcement, LoggerManager.Holdings, LoggerManager.Extends, SameParts;
      hide Config.Step, Find;
      ghost var was := cfg.State();
      var k := |cfg.notices|;
      NewCall(was, v, id);
      cfg.SetValue(v);
      Hear(k, note, world, was, v, st);
    }

    /** Setting the variable from a text: one that does not convert changes nothing. */
    method FromString(text: string, load: string -> Result<Node>, note: Event, world: World, ghost st: LogsState)
      requires Holds(st) && world !in mgr.Repr && cfg.fromStr(text) == FromText(text, load)
      modifies cfg, mgr.Repr, world
      ensures Holds(SetFromText(st, text, load)) && cfg.State() == Config.Converted(old(cfg.State()), cfg.fromStr, text)
      ensures mgr.Extends(old(mgr.loggers))
      ensures forall n :: Find(st.val, n) == Find(SetFromText(st, text, load).val, n) ==> SameParts(old(mgr.Holdings()), mgr.Holdings(), n)
      ensures old(mgr.Repr) <= mgr.Repr && forall o :: o in mgr.Repr ==> o in old(mgr.Repr) || fresh(o)
    {
      hide SetLogs, AllMatch, LoggerManager.Shows, LoggerManager.Holdings, LoggerManager.Extends, SameParts, Config.Step, Find, FromText;
      hide Config.Converted, Config.Ordered, Config.Told;
      ghost var was := cfg.State();
      var k := |cfg.notices|;
      ghost var v := NextValue(st.val, text, load);
      NewCall(was, v, id);
      ConvertedIsStep(was, cfg.fromStr, text, load);
      var _ := cfg.FromString(text);
      Hear(k, note, world, was, v, st);
    }

    /** Setting the variable from its texts in turn is a run over those that convert; the
        others change nothing. */
    method LoadTexts(texts: seq<string>, load: string -> Result<Node>, notes: nat -> Event, world: World, ghost st: LogsState)
      requires Holds(st) && world !in mgr.Repr && Casts(load)
      modifies cfg, mgr.Repr, world
      ensures Holds(RunLogs(st, Parsed(texts, load)))
      ensures mgr.Extends(old(mgr.loggers))
      ensures forall n :: Steady(st.val, Parsed(texts, load), n) ==> SameParts(old(mgr.Holdings()), mgr.Holdings(), n)
      ensures old(mgr.Repr) <= mgr.Repr && forall o :: o in mgr.Repr ==> o in old(mgr.Repr) || fresh(o)
    {
      hide SetFromText, FromText, LogsVar.Holds, Parsed, RunLogs, LoggerManager.Holdings, Steady, SameParts, Kept;
      ghost var cur, ps := st, mgr.Holdings();
      KeptAll(ps, st.val, Parsed(texts, load));
      var j := 0;
      assert texts[j..] == texts;
      while j < |texts|
        invariant 0 <= j <= |texts| && Holds(cur) && world !in mgr.Repr
        invariant RunLogs(cur, Parsed(texts[j..], load)) == RunLogs(st, Parsed(texts, load))
        invariant mgr.Extends(old(mgr.loggers))
        invariant Kept(ps, mgr.Holdings(), st.val, Parsed(texts, load), cur.val, Parsed(texts[j..], load))
        invariant old(mgr.Repr) <= mgr.Repr && forall o :: o in mgr.Repr ==> o in old(mgr.Repr) || fresh(o)
      {
        ghost var before := mgr.Holdings();
        ParsedStep(cur, texts, j, load);
        FromString(texts[j], load, notes(j), world, cur);
        assert texts[j..] == [texts[j]] + texts[j + 1..];
        KeptTurn(ps, before, mgr.Holdings(), st.val, Parsed(texts, load), cur, texts[j], texts[j + 1..], load);
        cur := SetFromText(cur, texts[j], load);
        j := j + 1;
      }
      ParsedStep(cur, texts, j, load);
      KeptEnd(ps, mgr.Holdings(), st.val, Parsed(texts, load), cur.val, Parsed(texts[j..], load));
    }

    // The variable converts text as the cast does.
    ghost predicate Casts(load: string -> Result<Node>) {
      forall text :: cfg.fromStr(text) == FromText(text, load)
    }

    // The variable is the registry's "logs", and the registry's variables are apart from the loggers.
    ghost predicate In(reg: VarRegistry<DefineSet>)
      reads reg, mgr
    {
      reg.Valid() && "logs" in reg.vars && reg.vars["logs"] == cfg &&
      reg !in mgr.Repr && forall v :: v in reg.vars.Values ==> v !in mgr.Repr && v.ids !in mgr.Repr
    }

    // The registry sets the variable of one node, which may be "logs".
    method LoadItem(reg: VarRegistry<DefineSet>, path: string, node: Node, emit: Node -> string)
      requires In(reg) && ValidPath(path)
      modifies reg.vars.Values
      ensures In(reg) && reg.States() == NodeStates(old(reg.States()), Casting(reg.vars), path, Label(node, emit))
      ensures cfg.State() ==
        if path == "logs" then Config.Converted(old(cfg.State()), cfg.fromStr, Label(node, emit)) else old(cfg.State())
    {
      hide Config.Converted, Label, Config.ConfigVar.State;
      assert reg.States()["logs"] == cfg.State();
      reg.LoadItem(path, node, emit);
      assert reg.States()["logs"] == cfg.State();
    }

    // The same for "logs" as a setting, beside the loggers.
    method LoadBeside(reg: VarRegistry<DefineSet>, path: string, node: Node, emit: Node -> string, load: string -> Result<Node>,
                      ghost st: LogsState)
      requires Holds(st) && In(reg) && Casts(load) && ValidPath(path)
      modifies reg.vars.Values
      ensures In(reg) && reg.States() == NodeStates(old(reg.States()), Casting(reg.vars), path, Label(node, emit))
      ensures Listens() && mgr.Shows(st.views) && AllMatch(st.views, st.val)
      ensures mgr.loggers == old(mgr.loggers) && mgr.Holdings() == old(mgr.Holdings()) && mgr.Repr == old(mgr.Repr)
      ensures cfg.State() == Config.Step(old(cfg.State()), Config.SetValue(NodeValue(st.val, path, Label(node, emit), load)))
    {
      hide Config.Converted, Config.Step, Label, Config.Ordered, FromText, AllMatch, LoggerManager.Shows;
      hide LoggerManager.Holdings, NodeStates, Casting, VarRegistry.States;
      ghost var was, text := cfg.State(), Label(node, emit);
      ConvertedIsStep(was, cfg.fromStr, text, load);
      SameValue(was);
      NewCall(was, NodeValue(st.val, path, text, load), id);
      LoadItem(reg, path, node, emit);
    }

    // Hear, beside the registry.
    method HearBeside(reg: VarRegistry<DefineSet>, k: nat, note: Event, world: World,
                      ghost was: Config.VarState<DefineSet>, ghost v: DefineSet, ghost st: LogsState)
      requires In(reg) && Listens() && mgr.Shows(st.views) && AllMatch(st.views, st.val) && world !in mgr.Repr
      requires Config.Ordered(was.cbs, was.last) && id in was.cbs && was.val == st.val && k == |was.notices|
      requires cfg.State() == Config.Step(was, Config.SetValue(v)) && (v != st.val ==> AllAppliable(v))
      modifies mgr.Repr, world
      ensures Holds(SetLogs(st, v)) && In(reg) && reg.vars == old(reg.vars) && reg.States() == old(reg.States())
      ensures mgr.Extends(old(mgr.loggers))
      ensures forall n :: Find(st.val, n) == Find(v, n) ==> SameParts(old(mgr.Holdings()), mgr.Holdings(), n)
      ensures old(mgr.Repr) <= mgr.Repr && forall o :: o in mgr.Repr ==> o in old(mgr.Repr) || fresh(o)
    {
      hide SetLogs, AllMatch, LoggerManager.Shows, LoggerManager.Holdings, LoggerManager.Extends, SameParts, Find, LogsVar.Holds;
      hide Config.Step, Config.Ordered, VarRegistry.States, LogsVar.Listens;
      Hear(k, note, world, was, v, st);
    }

    /** One node: the registry sets the variable of its path, and setting "logs" runs the listener. */
    method LoadNode(reg: VarRegistry<DefineSet>, path: string, node: Node, emit: Node -> string, load: string -> Result<Node>,
                    note: Event, world: World, ghost st: LogsState)
      requires Holds(st) && In(reg) && Casts(load) && world !in mgr.Repr && ValidPath(path)
      modifies reg.vars.Values, mgr.Repr, world
      ensures Holds(SetFromNode(st, path, Label(node, emit), load)) && In(reg)
      ensures reg.States() == NodeStates(old(reg.States()), Casting(reg.vars), path, Label(node, emit))
      ensures mgr.Extends(old(mgr.loggers))
      ensures forall n :: Find(st.val, n) == Find(SetFromNode(st, path, Label(node, emit), load).val, n) ==>
        SameParts(old(mgr.Holdings()), mgr.Holdings(), n)
      ensures old(mgr.Repr) <= mgr.Repr && forall o :: o in mgr.Repr ==> o in old(mgr.Repr) || fresh(o)
    {
      hide SetLogs, SetFromNode, NodeValue, AllMatch, LoggerManager.Shows, LoggerManager.Holdings, LoggerManager.Extends, SameParts;
      hide Config.Step, Find;
      hide VarRegistry.States, NodeStates, Casting, Label, Config.Ordered, LogsVar.In, LogsVar.Listens, LogsVar.Holds, LogsVar.Casts;
      Before(st);
      ghost var was, text := cfg.State(), Label(node, emit);
      var k := |cfg.notices|;
      SetFromNodeIs(st, path, text, load);
      LoadBeside(reg, path, node, emit, load, st);
      HearBeside(reg, k, note, world, was, NodeValue(st.val, path, text, load), st);
    }

    /** The nodes of a listing in turn. */
    method LoadNodes(reg: VarRegistry<DefineSet>, items: seq<(string, Node)>, emit: Node -> string, load: string -> Result<Node>,
                     notes: nat -> Event, world: World, ghost st: LogsState)
      requires Holds(st) && In(reg) && Casts(load) && world !in mgr.Repr && forall k :: 0 <= k < |items| ==> ValidPath(items[k].0)
      modifies reg.vars.Values, mgr.Repr, world
      ensures Holds(RunLogs(st, Parsed(TextsFor("logs", items, emit), load)))
      ensures Loaded(old(reg.States()), Casting(reg.vars), items, emit, reg.States())
      ensures mgr.Extends(old(mgr.loggers))
      ensures forall n :: Steady(st.val, Parsed(TextsFor("logs", items, emit), load), n) ==> SameParts(old(mgr.Holdings()), mgr.Holdings(), n)
    {
      hide TextsFor, FromTexts, VarRegistry.States, NodeStates, Casting, Label, Loaded;
      hide SetFromNode, FromText, LogsVar.Holds, LogsVar.Casts, Parsed, RunLogs, LoggerManager.Holdings, Steady, SameParts, Kept;
      ghost var cur, ps, sets := st, mgr.Holdings(), Parsed(TextsFor("logs", items, emit), load);
      KeptAll(ps, st.val, sets);
      var j := 0;
      assert items[j..] == items;
      LoadedNone(reg.States(), Casting(reg.vars), items[..j], emit);
      while j < |items|
        invariant 0 <= j <= |items| && Holds(cur) && In(reg) && Casts(load) && world !in mgr.Repr && reg.vars == old(reg.vars)
        invariant Loaded(old(reg.States()), Casting(reg.vars), items[..j], emit, reg.States())
        invariant RunLogs(cur, Parsed(TextsFor("logs", items[j..], emit), load)) == RunLogs(st, sets)
        invariant mgr.Extends(old(mgr.loggers))
        invariant Kept(ps, mgr.Holdings(), st.val, sets, cur.val, Parsed(TextsFor("logs", items[j..], emit), load))
        invariant old(mgr.Repr) <= mgr.Repr && forall o :: o in mgr.Repr ==> o in old(mgr.Repr) || fresh(o)
      {
        ghost var before, states := mgr.Holdings(), reg.States();
        NodeStep(cur, items, j, emit, load);
        LoadNode(reg, items[j].0, items[j].1, emit, load, notes(j), world, cur);
        LoadedStep(old(reg.States()), Casting(reg.vars), items, j, emit, states);
        KeptNode(ps, before, mgr.Holdings(), st.val, sets, cur, items, j, emit, load);
        cur := SetFromNode(cur, items[j].0, Label(items[j].1, emit), load);
        j := j + 1;
      }
      NoMoreNodes(cur, items[j..], emit, load);
      KeptEnd(ps, mgr.Holdings(), st.val, sets, cur.val, Parsed(TextsFor("logs", items[j..], emit), load));
      assert items[..j] == items;
    }

    /** The whole pipeline, on one heap: loading a tree into the registry leaves every
        variable as if its own texts alone had been set, and the loggers match the last
        well-formed "logs" node of the tree, or the value there was when it has none. */
    method LoadTree(reg: VarRegistry<DefineSet>, root: Node, emit: Node -> string, load: string -> Result<Node>,
                    notes: nat -> Event, world: World, ghost st: LogsState)
      requires Holds(st) && In(reg) && Casts(load) && world !in mgr.Repr
      modifies reg.vars.Values, mgr.Repr, world
      ensures Loaded(old(reg.States()), Casting(reg.vars), Yaml.Valid(Paths("", root)), emit, reg.States())
      ensures var sets := Parsed(TextsFor("logs", Yaml.Valid(Paths("", root)), emit), load);
        Holds(RunLogs(st, sets)) && cfg.val == (if sets == [] then st.val else sets[|sets| - 1]) &&
        forall n :: Steady(st.val, sets, n) ==> SameParts(old(mgr.Holdings()), mgr.Holdings(), n)
      ensures mgr.Extends(old(mgr.loggers))
    {
      hide RunLogs, Parsed, AllMatch, SetLogs, LoggerManager.Shows, TextsFor, Flatten, SameParts, Steady;
      hide LoggerManager.Extends, LoggerManager.Holdings;
      hide Loaded, VarRegistry.States, Casting, LogsVar.Holds, LogsVar.In, LogsVar.Casts, ValidPath, Paths, Yaml.Valid;
      var listing := new Listing();
      ListAllMember("", root, listing);
      ListedPathsAreValid(root);
      assert [] + Flatten("", root) == Flatten("", root);
      Matching(st);
      RunLogsCorrect(st, Parsed(TextsFor("logs", listing.items, emit), load));
      LoadNodes(reg, listing.items, emit, load, notes, world, st);
      Matching(RunLogs(st, Parsed(TextsFor("logs", listing.items, emit), load)));
    }
  }

  /** At program start the variable is registered, empty, and the reconciling listener with
      it: whatever loggers there are, the value, the loggers and the registry fit together. */
  method Register(mgr: LoggerManager, reg: VarRegistry<DefineSet>, ids: Config.IdSource, tag: nat, load: string -> Result<Node>,
                  ghost vs: map<string, LoggerView>) returns (logs: LogsVar)
    requires mgr.Shows(vs) && reg.Valid() && "logs" !in reg.vars
    requires reg !in mgr.Repr && ids !in mgr.Repr && forall v :: v in reg.vars.Values ==> v !in mgr.Repr && v.ids !in mgr.Repr
    modifies reg, ids
    ensures logs.mgr == mgr && logs.Holds(LogsState([], vs)) && logs.In(reg) && logs.Casts(load)
    ensures reg.vars == old(reg.vars)["logs" := logs.cfg]
  {
    hide LoggerManager.Shows, AllMatch, FromText;
    var r := reg.Lookup("logs", tag, [], text => FromText(text, load), ids);
    LogsIsValid();
    logs := new LogsVar(mgr, r.v, vs);
  }

  lemma LogsIsValid()
    ensures ValidPath("logs")
  {
  }

  lemma ParsedCons(texts: seq<string>, load: string -> Result<Node>)
    requires texts != []
    ensures Parsed(texts, load) ==
      (if FromText(texts[0], load).Ok? then [FromText(texts[0], load).value] else []) + Parsed(texts[1..], load)
  {
    hide FromText;
  }

  // Setting from the first text and then from the rest.
  lemma RunCons(st: LogsState, text: string, rest: seq<string>, load: string -> Result<Node>)
    ensures RunLogs(st, Parsed([text] + rest, load)) == RunLogs(SetFromText(st, text, load), Parsed(rest, load))
    ensures forall n :: Steady(st.val, Parsed([text] + rest, load), n) ==>
      Find(st.val, n) == Find(SetFromText(st, text, load).val, n) && Steady(SetFromText(st, text, load).val, Parsed(rest, load), n)
  {
    hide FromText, Find, Reconcile;
    assert ([text] + rest)[1..] == rest;
    ParsedCons([text] + rest, load);
    var sets := Parsed(rest, load);
    if FromText(text, load).Ok? {
      var v := FromText(text, load).value;
      assert ([v] + sets)[1..] == sets;
    } else {
      assert [] + sets == sets;
    }
  }

  lemma ParsedStep(st: LogsState, texts: seq<string>, j: nat, load: string -> Result<Node>)
    requires j <= |texts|
    ensures RunLogs(st, Parsed(texts[j..], load)) ==
      if j == |texts| then st else RunLogs(SetFromText(st, texts[j], load), Parsed(texts[j + 1..], load))
  {
    hide SetFromText, FromText, SetLogs;
    if j < |texts| {
      assert texts[j..] == [texts[j]] + texts[j + 1..];
      RunCons(st, texts[j], texts[j + 1..], load);
    }
  }

  lemma NodeStep(st: LogsState, items: seq<(string, Node)>, j: nat, emit: Node -> string, load: string -> Result<Node>)
    requires j < |items|
    ensures RunLogs(st, Parsed(TextsFor("logs", items[j..], emit), load)) ==
      RunLogs(SetFromNode(st, items[j].0, Label(items[j].1, emit), load), Parsed(TextsFor("logs", items[j + 1..], emit), load))
  {
    hide SetFromText, RunLogs, Parsed, Label;
    assert items[j..][1..] == items[j + 1..];
    var rest := TextsFor("logs", items[j + 1..], emit);
    assert [] + rest == rest;
    RunCons(st, Label(items[j].1, emit), rest, load);
  }

  lemma KeptNode(ps: map<string, Parts>, before: map<string, Parts>, after: map<string, Parts>, first: DefineSet, all: seq<DefineSet>,
                 st: LogsState, items: seq<(string, Node)>, j: nat, emit: Node -> string, load: string -> Result<Node>)
    requires j < |items| && Kept(ps, before, first, all, st.val, Parsed(TextsFor("logs", items[j..], emit), load))
    requires forall n :: Find(st.val, n) == Find(SetFromNode(st, items[j].0, Label(items[j].1, emit), load).val, n) ==> SameParts(before, after, n)
    ensures Kept(ps, after, first, all, SetFromNode(st, items[j].0, Label(items[j].1, emit), load).val,
                 Parsed(TextsFor("logs", items[j + 1..], emit), load))
  {
    hide Find, Steady, SetFromText, Parsed, Label;
    assert items[j..][1..] == items[j + 1..];
    var rest := TextsFor("logs", items[j + 1..], emit);
    assert [] + rest == rest;
    if items[j].0 == "logs" {
      KeptTurn(ps, before, after, first, all, st, Label(items[j].1, emit), rest, load);
    }
  }

  lemma NoMoreNodes(st: LogsState, items: seq<(string, Node)>, emit: Node -> string, load: string -> Result<Node>)
    requires items == []
    ensures RunLogs(st, Parsed(TextsFor("logs", items, emit), load)) == st
  {
  }

  // Names the whole run leaves alone have kept their objects so far, and the rest leaves them alone.
  ghost predicate Kept(ps: map<string, Parts>, now: map<string, Parts>, first: DefineSet, all: seq<DefineSet>,
                       val: DefineSet, rest: seq<DefineSet>) {
    forall n :: Steady(first, all, n) ==> SameParts(ps, now, n) && Steady(val, rest, n)
  }

  lemma KeptAll(ps: map<string, Parts>, first: DefineSet, all: seq<DefineSet>)
    ensures Kept(ps, ps, first, all, first, all)
  {
    hide Steady;
  }

  lemma KeptEnd(ps: map<string, Parts>, now: map<string, Parts>, first: DefineSet, all: seq<DefineSet>, val: DefineSet, rest: seq<DefineSet>)
    requires Kept(ps, now, first, all, val, rest)
    ensures forall n :: Steady(first, all, n) ==> SameParts(ps, now, n)
  {
    hide Steady, SameParts;
  }

  lemma KeptTurn(ps: map<string, Parts>, before: map<string, Parts>, after: map<string, Parts>, first: DefineSet, all: seq<DefineSet>,
                 st: LogsState, text: string, rest: seq<string>, load: string -> Result<Node>)
    requires Kept(ps, before, first, all, st.val, Parsed([text] + rest, load))
    requires forall n :: Find(st.val, n) == Find(SetFromText(st, text, load).val, n) ==> SameParts(before, after, n)
    ensures Kept(ps, after, first, all, SetFromText(st, text, load).val, Parsed(rest, load))
  {
    hide Find, Steady, SetFromText, Parsed;
    RunCons(st, text, rest, load);
  }

  // ---------------------------------------------------------------- the registry's variable and its listener

  // What the listener makes of what it is told, call by call.
  function Replay(vs: map<string, LoggerView>, told: seq<(DefineSet, DefineSet)>): map<string, LoggerView>
    decreases told
  {
    if told == [] then vs else Replay(Reconcile(vs, told[0].0, told[0].1), told[1..])
  }

  function Settings(vals: seq<DefineSet>): seq<Config.Op<DefineSet>> {
    if vals == [] then [] else [Config.SetValue(vals[0])] + Settings(vals[1..])
  }

  lemma {:induction false} SettingsSurvived(vals: seq<DefineSet>, id: nat)
    ensures Config.Survives(id, Settings(vals))
  {
    if vals != [] {
      SettingsSurvived(vals[1..], id);
    }
  }

  lemma {:induction false} LoadingSets(st: Config.VarState<DefineSet>, fromStr: string -> Result<DefineSet>, texts: seq<string>,
                                       load: string -> Result<Node>)
    requires forall text :: fromStr(text) == FromText(text, load)
    ensures FromTexts(st, fromStr, texts) == Config.Run(st, Settings(Parsed(texts, load)))
    decreases texts
  {
    if texts != [] {
      hide FromText, Config.Step;
      LoadingSets(Config.Converted(st, fromStr, texts[0]), fromStr, texts[1..], load);
      var rest := Parsed(texts[1..], load);
      assert [] + rest == rest;
      if fromStr(texts[0]).Ok? {
        var v := fromStr(texts[0]).value;
        assert ([v] + rest)[1..] == rest;
        assert ([Config.SetValue(v)] + Settings(rest))[1..] == Settings(rest);
      }
    }
  }

  lemma {:induction false} ReplayIsRun(st: LogsState, vals: seq<DefineSet>)
    ensures Replay(st.views, Config.Changes(st.val, Settings(vals))) == RunLogs(st, vals).views
    decreases vals
  {
    if vals != [] {
      hide Reconcile;
      ReplayIsRun(SetLogs(st, vals[0]), vals[1..]);
      assert Settings(vals)[1..] == Settings(vals[1..]);
      var rest := Config.Changes(vals[0], Settings(vals[1..]));
      assert ([(st.val, vals[0])] + rest)[1..] == rest;
    }
  }

  /** The registry and the loggers agree.  While a tree is loaded, the variable "logs" of
      the registry tells the reconciling listener exactly the calls that, made on the
      loggers one after the other, leave them as LoadTree does, and it ends at the same value. */
  lemma RegistryAgrees(st: Config.VarState<DefineSet>, fromStr: string -> Result<DefineSet>, texts: seq<string>,
                       load: string -> Result<Node>, id: nat, vs: map<string, LoggerView>)
    requires forall text :: fromStr(text) == FromText(text, load)
    requires Config.Ordered(st.cbs, st.last) && id in st.cbs && AllMatch(vs, st.val)
    ensures var end, logs := FromTexts(st, fromStr, texts), RunLogs(LogsState(st.val, vs), Parsed(texts, load));
      exists told :: Config.Told(end.notices, id) == Config.Told(st.notices, id) + told && Replay(vs, told) == logs.views &&
        end.val == logs.val
  {
    var vals := Parsed(texts, load);
    LoadingSets(st, fromStr, texts, load);
    SettingsSurvived(vals, id);
    Config.NotificationChain(st, Settings(vals), id);
    ReplayIsRun(LogsState(st.val, vs), vals);
    RunLogsCorrect(LogsState(st.val, vs), vals);
    LastSetting(st, vals);
    hide Config.Run, RunLogs, Parsed, FromTexts, Replay, Config.Told;
    var told := Config.Changes(st.val, Settings(vals));
    assert Replay(vs, told) == RunLogs(LogsState(st.val, vs), vals).views;
  }

  lemma {:induction false} LastSetting(st: Config.VarState<DefineSet>, vals: seq<DefineSet>)
    ensures Config.Run(st, Settings(vals)).val == if vals == [] then st.val else vals[|vals| - 1]
    decreases vals
  {
    if vals != [] {
      LastSetting(Config.Step(st, Config.SetValue(vals[0])), vals[1..]);
      assert Settings(vals)[1..] == Settings(vals[1..]);
    }
  }
}
