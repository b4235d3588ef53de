/** Any number of threads setting "logs" at once, with every locked operation of the
    reconciling listener a step of its own. */
module LogsRuns {
  import opened Basics
  import opened Logging
  import opened LogConfig
  import opened Reconciling
  import opened SetValueRuns
  import opened LoggerSteps
  import opened Announcements
  import Config

  /** The variable and its threads, the loggers, what each thread's call of the listener
      has still to do, and what was done so far by whom. */
  datatype Logs = Logs(st: State<DefineSet>, views: map<string, LoggerView>, todo: seq<seq<LoggerStep>>,
                       done: seq<(nat, LoggerStep)>)

  // A move of setValue, or the next logger operation of the listener.
  datatype LogsMove = Var(m: Move<DefineSet>) | Act

  predicate CanMove(r: nat, s: Logs, t: nat, m: LogsMove) {
    t < |s.todo| &&
    match m
    case Var(move) => Can(s.st, t, move) && (move.Return? ==> s.todo[t] == [])
    case Act => s.todo[t] != []
  }

  function DoMove(r: nat, s: Logs, t: nat, m: LogsMove): Logs
    requires CanMove(r, s, t, m)
  {
    match m
    case Act =>
      Logs(s.st, Step(s.views, s.todo[t][0]), s.todo[t := s.todo[t][1..]], s.done + [(t, s.todo[t][0])])
    case Var(move) =>
      var next := s.(st := Do(s.st, t, move));
      if move.Call? && s.st.cbs[s.st.pcs[t].k] == r then next.(todo := s.todo[t := Script(s.st.val, s.st.pcs[t].v)]) else next
  }

  predicate CanMoves(r: nat, s: Logs, run: seq<(nat, LogsMove)>)
    decreases run
  {
    run == [] || (CanMove(r, s, run[0].0, run[0].1) && CanMoves(r, DoMove(r, s, run[0].0, run[0].1), run[1..]))
  }

  function Moves(r: nat, s: Logs, run: seq<(nat, LogsMove)>): Logs
    requires CanMoves(r, s, run)
    decreases run
  {
    if run == [] then s else Moves(r, DoMove(r, s, run[0].0, run[0].1), run[1..])
  }

  function Begin(o: Origin<DefineSet>, vs: map<string, LoggerView>, threads: nat): Logs {
    Logs(Start(o, threads), vs, seq(threads, t => []), [])
  }

  // ---------------------------------------------------------------- calls of the listener

  // The thread whose call of listener r was last to start, if it has not returned.
  function OpenCall(r: nat, h: History): Option<nat> {
    if h == [] then None
    else
      var e := h[|h| - 1];
      if Announcements.Calls(e, r) then Some(e.t) else if e.Returned? && e.id == r then None else OpenCall(r, h[..|h| - 1])
  }

  // No call of listener r starts while another is open.
  ghost predicate Apart(r: nat, h: History) {
    forall k :: 0 <= k < |h| && Announcements.Calls(h[k], r) ==> OpenCall(r, h[..k]) == None
  }

  // What the open call, if any, has still to do.
  function Remaining(r: nat, s: Logs): seq<LoggerStep> {
    match OpenCall(r, s.st.history)
    case Some(t) => if t < |s.todo| then s.todo[t] else []
    case None => []
  }

  // Thread t is inside a call of listener r.
  predicate Inside(r: nat, s: Logs, t: nat) {
    t < |s.st.pcs| && s.st.pcs[t].InCall? && s.st.pcs[t].id == r
  }

  // The invariant of every run, whether or not calls of the listener overlap.
  ghost predicate Sane(o: Origin<DefineSet>, r: nat, s: Logs) {
    Inv(o, s.st) && |s.todo| == |s.st.pcs| &&
    (forall t :: 0 <= t < |s.todo| && s.todo[t] != [] ==> Inside(r, s, t)) &&
    forall t :: OpenCall(r, s.st.history) == Some(t) ==> Inside(r, s, t)
  }

  // What holds besides as long as they do not overlap.
  ghost predicate Orderly(vs: map<string, LoggerView>, r: nat, s: Logs) {
    (forall t :: 0 <= t < |s.todo| && Inside(r, s, t) ==> OpenCall(r, s.st.history) == Some(t)) &&
    StepAll(s.views, Remaining(r, s)) == ViewsAt(vs, r, s.st.history)
  }

  lemma OpenSnoc(r: nat, h: History, e: Event<DefineSet>)
    ensures OpenCall(r, h + [e]) ==
      if Announcements.Calls(e, r) then Some(e.t) else if e.Returned? && e.id == r then None else OpenCall(r, h)
  {
    assert (h + [e])[..|h|] == h;
  }

  lemma ViewsSnoc(vs: map<string, LoggerView>, r: nat, h: History, e: Event<DefineSet>)
    ensures ViewsAt(vs, r, h + [e]) ==
      if Announcements.Calls(e, r) then Reconcile(ViewsAt(vs, r, h), e.before, e.after) else ViewsAt(vs, r, h)
  {
    assert (h + [e])[..|h|] == h;
  }

  lemma ApartSnoc(r: nat, h: History, e: Event<DefineSet>)
    requires Apart(r, h + [e])
    ensures Apart(r, h) && (Announcements.Calls(e, r) ==> OpenCall(r, h) == None)
  {
    var g := h + [e];
    forall k | 0 <= k < |h| && Announcements.Calls(h[k], r) ensures OpenCall(r, h[..k]) == None {
      assert g[..k] == h[..k] && g[k] == h[k];
    }
    assert g[..|h|] == h && g[|h|] == e;
  }

  // What a move does to the places of the threads and to the history.
  lemma MoveShape(r: nat, s: Logs, t: nat, m: LogsMove)
    requires CanMove(r, s, t, m) && |s.todo| == |s.st.pcs|
    ensures var s' := DoMove(r, s, t, m);
      |s'.todo| == |s.todo| == |s'.st.pcs| &&
      (forall u :: 0 <= u < |s.todo| && u != t ==> s'.todo[u] == s.todo[u] && s'.st.pcs[u] == s.st.pcs[u])
    ensures m.Act? ==> DoMove(r, s, t, m).st == s.st
  {
    if m.Var? {
      StepHistory(s.st, t, m.m);
    }
    hide Do, Can;
  }

  lemma OthersInside(r: nat, s: Logs, t: nat, m: LogsMove, u: nat)
    requires CanMove(r, s, t, m) && |s.todo| == |s.st.pcs| && u != t
    ensures Inside(r, DoMove(r, s, t, m), u) <==> Inside(r, s, u)
  {
    MoveShape(r, s, t, m);
    hide DoMove;
  }

  lemma SaneAct(o: Origin<DefineSet>, r: nat, s: Logs, t: nat)
    requires Sane(o, r, s) && CanMove(r, s, t, Act)
    ensures Sane(o, r, DoMove(r, s, t, Act))
  {
    hide Inv, OpenCall, Step;
  }

  // Whoever has something to do is inside, after a move as before.
  lemma TodoInside(o: Origin<DefineSet>, r: nat, s: Logs, t: nat, m: Move<DefineSet>)
    requires Sane(o, r, s) && CanMove(r, s, t, Var(m))
    ensures var s' := DoMove(r, s, t, Var(m));
      forall u :: 0 <= u < |s'.todo| && s'.todo[u] != [] ==> Inside(r, s', u)
  {
    var s' := DoMove(r, s, t, Var(m));
    OwnPlace(o, r, s, t, m);
    MoveShape(r, s, t, Var(m));
    hide Inv, Do, Can, DoMove, CanMove, EventOf, Inside, OpenCall, Script;
    forall u | 0 <= u < |s'.todo| && s'.todo[u] != [] ensures Inside(r, s', u) {
      if u != t {
        OthersInside(r, s, t, Var(m), u);
      }
    }
  }

  // Whose call is open is inside, after a move as before.
  lemma OpenInside(o: Origin<DefineSet>, r: nat, s: Logs, t: nat, m: Move<DefineSet>, u: nat)
    requires Sane(o, r, s) && CanMove(r, s, t, Var(m)) && OpenCall(r, DoMove(r, s, t, Var(m)).st.history) == Some(u)
    ensures Inside(r, DoMove(r, s, t, Var(m)), u)
  {
    StepHistory(s.st, t, m);
    OwnPlace(o, r, s, t, m);
    var event := EventOf(s.st, t, m);
    assert DoMove(r, s, t, Var(m)).st == Do(s.st, t, m);
    if event.Some? {
      OpenSnoc(r, s.st.history, event.value);
    }
    hide Inv, Do, Can, DoMove, CanMove, EventOf, Inside, OpenCall, Script;
    if u != t {
      OthersInside(r, s, t, Var(m), u);
    }
  }

  lemma SaneMove(o: Origin<DefineSet>, r: nat, s: Logs, t: nat, m: Move<DefineSet>)
    requires Sane(o, r, s) && CanMove(r, s, t, Var(m))
    ensures Sane(o, r, DoMove(r, s, t, Var(m)))
  {
    MoveShape(r, s, t, Var(m));
    StepKeeps(o, s.st, t, m);
    TodoInside(o, r, s, t, m);
    assert DoMove(r, s, t, Var(m)).st == Do(s.st, t, m);
    hide Inv, Do, DoMove, CanMove, OpenCall, Inside;
    forall u | OpenCall(r, DoMove(r, s, t, Var(m)).st.history) == Some(u) ensures Inside(r, DoMove(r, s, t, Var(m)), u) {
      OpenInside(o, r, s, t, m, u);
    }
  }

  // A thread is inside the listener from the call to the return, and its own moves say when.
  lemma OwnPlace(o: Origin<DefineSet>, r: nat, s: Logs, t: nat, m: Move<DefineSet>)
    requires Sane(o, r, s) && CanMove(r, s, t, Var(m))
    ensures var s' := DoMove(r, s, t, Var(m));
      (Inside(r, s', t) <==> EventOf(s.st, t, m).Some? && Announcements.Calls(EventOf(s.st, t, m).value, r)) &&
      (Inside(r, s, t) <==> m.Return? && EventOf(s.st, t, m) == Some(Returned(t, r))) &&
      s'.todo[t] == (if Inside(r, s', t) then Script(s.st.val, s.st.pcs[t].v) else s.todo[t]) &&
      (!Inside(r, s', t) ==> s'.todo[t] == [])
    ensures EventOf(s.st, t, m).Some? && Announcements.Calls(EventOf(s.st, t, m).value, r) ==>
      EventOf(s.st, t, m).value == Told(t, r, s.st.val, s.st.pcs[t].v)
    ensures EventOf(s.st, t, m).Some? && EventOf(s.st, t, m).value.Returned? ==> m.Return?
  {
    hide Inv, Script, OpenCall;
  }

  // ---------------------------------------------------------------- calls that keep apart

  lemma OrderlyAct(o: Origin<DefineSet>, vs: map<string, LoggerView>, r: nat, s: Logs, t: nat)
    requires Sane(o, r, s) && Orderly(vs, r, s) && CanMove(r, s, t, Act)
    ensures Orderly(vs, r, DoMove(r, s, t, Act))
  {
    assert Inside(r, s, t);
    var s' := DoMove(r, s, t, Act);
    assert Remaining(r, s') == Remaining(r, s)[1..];
    hide Inv, OpenCall, Step, ViewsAt;
  }

  // The listener is called: nothing was left to do, and now its script is.
  lemma OrderlyCall(vs: map<string, LoggerView>, r: nat, s: Logs, s': Logs, t: nat, e: Event<DefineSet>)
    requires Orderly(vs, r, s) && OpenCall(r, s.st.history) == None && |s.todo| == |s'.todo| && t < |s.todo|
    requires Announcements.Calls(e, r) && e.t == t && s'.st.history == s.st.history + [e] && s'.views == s.views
    requires s'.todo[t] == Script(e.before, e.after)
    requires forall u :: 0 <= u < |s.todo| && u != t ==> (Inside(r, s', u) <==> Inside(r, s, u))
    ensures Orderly(vs, r, s')
  {
    assert StepAll(s.views, []) == s.views;
    hide Inside, OpenCall, Script, ViewsAt, Reconcile, StepAll;
    OpenSnoc(r, s.st.history, e);
    ViewsSnoc(vs, r, s.st.history, e);
    ScriptReconciles(s.views, e.before, e.after);
  }

  // The listener returns, having done everything.
  lemma OrderlyReturn(vs: map<string, LoggerView>, r: nat, s: Logs, s': Logs, t: nat)
    requires Orderly(vs, r, s) && OpenCall(r, s.st.history) == Some(t) && |s.todo| == |s'.todo| && t < |s.todo|
    requires s'.st.history == s.st.history + [Returned(t, r)] && s'.views == s.views
    requires s.todo[t] == [] && !Inside(r, s', t)
    requires forall u :: 0 <= u < |s.todo| && u != t ==> (Inside(r, s', u) <==> Inside(r, s, u))
    ensures Orderly(vs, r, s')
  {
    hide Inside, OpenCall, ViewsAt, StepAll;
    OpenSnoc(r, s.st.history, Returned(t, r));
    ViewsSnoc(vs, r, s.st.history, Returned(t, r));
  }

  // Nothing happens to the listener.
  lemma OrderlyElse(vs: map<string, LoggerView>, r: nat, s: Logs, s': Logs, t: nat)
    requires Orderly(vs, r, s) && |s.todo| == |s'.todo| && t < |s.todo| && s'.views == s.views
    requires s'.todo == s.todo && OpenCall(r, s'.st.history) == OpenCall(r, s.st.history)
    requires ViewsAt(vs, r, s'.st.history) == ViewsAt(vs, r, s.st.history) && !Inside(r, s', t)
    requires forall u :: 0 <= u < |s.todo| && u != t ==> (Inside(r, s', u) <==> Inside(r, s, u))
    ensures Orderly(vs, r, s')
  {
    hide Inside, OpenCall, ViewsAt, StepAll;
  }

  lemma OrderlyMove(o: Origin<DefineSet>, vs: map<string, LoggerView>, r: nat, s: Logs, t: nat, m: Move<DefineSet>)
    requires Sane(o, r, s) && Orderly(vs, r, s) && CanMove(r, s, t, Var(m))
    requires Apart(r, DoMove(r, s, t, Var(m)).st.history)
    ensures Orderly(vs, r, DoMove(r, s, t, Var(m)))
  {
    var s' := DoMove(r, s, t, Var(m));
    MoveShape(r, s, t, Var(m));
    StepHistory(s.st, t, m);
    OwnPlace(o, r, s, t, m);
    var event := EventOf(s.st, t, m);
    assert s'.st == Do(s.st, t, m) && s'.views == s.views && (m.Return? ==> s.todo[t] == []);
    assert Inside(r, s, t) ==> OpenCall(r, s.st.history) == Some(t);
    hide Inv, Do, Can, DoMove, CanMove, EventOf, OpenCall, Script, ViewsAt, Apart, Inside, Orderly;
    forall u | 0 <= u < |s.todo| && u != t ensures Inside(r, s', u) <==> Inside(r, s, u) {
      OthersInside(r, s, t, Var(m), u);
    }
    if event.None? {
      OrderlyElse(vs, r, s, s', t);
    } else {
      var e := event.value;
      ApartSnoc(r, s.st.history, e);
      OpenSnoc(r, s.st.history, e);
      ViewsSnoc(vs, r, s.st.history, e);
      if Announcements.Calls(e, r) {
        OrderlyCall(vs, r, s, s', t, e);
      } else if e.Returned? && e.id == r {
        OrderlyReturn(vs, r, s, s', t);
      } else {
        OrderlyElse(vs, r, s, s', t);
      }
    }
  }

  lemma ApartPrefix(r: nat, g: History, h: History)
    requires Apart(r, h) && g <= h
    ensures Apart(r, g)
  {
    forall k | 0 <= k < |g| && Announcements.Calls(g[k], r) ensures OpenCall(r, g[..k]) == None {
      assert h[..k] == g[..k] && h[k] == g[k];
    }
  }

  lemma HistoryGrows(r: nat, s: Logs, t: nat, m: LogsMove)
    requires CanMove(r, s, t, m)
    ensures s.st.history <= DoMove(r, s, t, m).st.history
  {
    if m.Var? {
      StepHistory(s.st, t, m.m);
    }
  }

  lemma {:induction false} HistoryGrowsAll(r: nat, s: Logs, run: seq<(nat, LogsMove)>)
    requires CanMoves(r, s, run)
    ensures s.st.history <= Moves(r, s, run).st.history
    decreases run
  {
    if run != [] {
      hide DoMove, CanMove;
      HistoryGrows(r, s, run[0].0, run[0].1);
      HistoryGrowsAll(r, DoMove(r, s, run[0].0, run[0].1), run[1..]);
    }
  }

  lemma {:induction false} SaneRun(o: Origin<DefineSet>, r: nat, s: Logs, run: seq<(nat, LogsMove)>)
    requires Sane(o, r, s) && CanMoves(r, s, run)
    ensures Sane(o, r, Moves(r, s, run))
    decreases run
  {
    if run != [] {
      var t, m := run[0].0, run[0].1;
      if m.Act? {
        SaneAct(o, r, s, t);
      } else {
        SaneMove(o, r, s, t, m.m);
      }
      hide Sane, DoMove, CanMove;
      SaneRun(o, r, DoMove(r, s, t, m), run[1..]);
    }
  }

  lemma {:induction false} OrderlyRun(o: Origin<DefineSet>, vs: map<string, LoggerView>, r: nat, s: Logs, run: seq<(nat, LogsMove)>)
    requires Sane(o, r, s) && Orderly(vs, r, s) && CanMoves(r, s, run) && Apart(r, Moves(r, s, run).st.history)
    ensures Orderly(vs, r, Moves(r, s, run))
    decreases run
  {
    if run != [] {
      var t, m := run[0].0, run[0].1;
      var next := DoMove(r, s, t, m);
      HistoryGrowsAll(r, next, run[1..]);
      ApartPrefix(r, next.st.history, Moves(r, next, run[1..]).st.history);
      if m.Act? {
        SaneAct(o, r, s, t);
        OrderlyAct(o, vs, r, s, t);
      } else {
        SaneMove(o, r, s, t, m.m);
        OrderlyMove(o, vs, r, s, t, m.m);
      }
      hide Sane, Orderly, DoMove, CanMove, Apart;
      OrderlyRun(o, vs, r, next, run[1..]);
    }
  }

  lemma BeginOk(o: Origin<DefineSet>, vs: map<string, LoggerView>, r: nat, threads: nat)
    requires Config.Ordered(o.cbs, o.last)
    ensures Sane(o, r, Begin(o, vs, threads)) && Orderly(vs, r, Begin(o, vs, threads))
  {
    StartOk(o, threads);
  }

  /** As long as no call of the listener starts while another is open, its operations come
      to the same as if each call were one step: with no call open, the loggers show what
      the announcements leave one after the other. */
  lemma CallsApartRefine(o: Origin<DefineSet>, vs: map<string, LoggerView>, r: nat, threads: nat, run: seq<(nat, LogsMove)>)
    requires Config.Ordered(o.cbs, o.last) && CanMoves(r, Begin(o, vs, threads), run)
    requires var h := Moves(r, Begin(o, vs, threads), run).st.history; Apart(r, h) && OpenCall(r, h) == None
    ensures var end := Moves(r, Begin(o, vs, threads), run);
      end.views == ViewsAt(vs, r, end.st.history) && AllFair(o, end.st.history) && end.st.val == ValueAt(o, end.st.history)
  {
    BeginOk(o, vs, r, threads);
    SaneRun(o, r, Begin(o, vs, threads), run);
    OrderlyRun(o, vs, r, Begin(o, vs, threads), run);
    hide CanMoves, Moves, OpenCall, ViewsAt;
    assert StepAll(Moves(r, Begin(o, vs, threads), run).views, []) == Moves(r, Begin(o, vs, threads), run).views;
  }

  /** In every run whose calls of the listener keep apart, with no call open: every logger
      shows the definition last announced for its name, is silent if that announcement took
      the definition away, and is untouched if none concerned it. */
  lemma ViewsFollow(o: Origin<DefineSet>, vs: map<string, LoggerView>, r: nat, threads: nat, run: seq<(nat, LogsMove)>, n: string)
    requires Config.Ordered(o.cbs, o.last) && AllMatch(vs, o.val) && CanMoves(r, Begin(o, vs, threads), run)
    requires var h := Moves(r, Begin(o, vs, threads), run).st.history; Apart(r, h) && OpenCall(r, h) == None
    ensures var end := Moves(r, Begin(o, vs, threads), run);
      if Seen(o.val, r, end.st.history, n) then Announcements.Shows(end.views, n, LastFor(o.val, r, end.st.history, n))
      else Lookup(end.views, n) == Lookup(vs, n)
  {
    CallsApartRefine(o, vs, r, threads, run);
    AnnouncedViews(vs, o.val, r, Moves(r, Begin(o, vs, threads), run).st.history, n);
  }

  /** In every such run the loggers match the variable iff the announcements and the
      definitions in its value agree: for each of these, the definition last announced for
      its name has the same level and appenders, and a usable formatter text of it is the
      last usable one announced. */
  lemma LoggersMatchIff(o: Origin<DefineSet>, vs: map<string, LoggerView>, r: nat, threads: nat, run: seq<(nat, LogsMove)>)
    requires Config.Ordered(o.cbs, o.last) && AllMatch(vs, o.val) && r in o.cbs && CanMoves(r, Begin(o, vs, threads), run)
    requires var h := Moves(r, Begin(o, vs, threads), run).st.history; Apart(r, h) && OpenCall(r, h) == None && Stays(r, h)
    ensures var end := Moves(r, Begin(o, vs, threads), run);
      var h := end.st.history;
      AllMatch(end.views, end.st.val) <==>
        forall d :: d in end.st.val ==>
          Alike(PatternAt(ViewIn(vs, d.name).pattern, r, h, d.name), LastFor(o.val, r, h, d.name), d)
  {
    CallsApartRefine(o, vs, r, threads, run);
    AnnouncedMatchIff(vs, o, r, Moves(r, Begin(o, vs, threads), run).st.history);
    hide Alike, AllMatch;
  }

  // ---------------------------------------------------------------- settings that do not overlap

  // Listener calls under way belong to settings under way.
  lemma InsideIsOpen(o: Origin<DefineSet>, r: nat, s: Logs, t: nat)
    requires Sane(o, r, s) && Serial(s.st.history) && OpenCall(r, s.st.history) == Some(t)
    ensures OpenBy(s.st.history) == Some(t)
  {
    assert ThreadOk(o, s.st, t);
    OpenIffAsked(o, s.st.history, t);
  }

  lemma SerialApartMove(o: Origin<DefineSet>, r: nat, s: Logs, t: nat, m: Move<DefineSet>)
    requires Sane(o, r, s) && CanMove(r, s, t, Var(m)) && Apart(r, s.st.history)
    requires Serial(DoMove(r, s, t, Var(m)).st.history)
    ensures Apart(r, DoMove(r, s, t, Var(m)).st.history)
  {
    var h := s.st.history;
    StepHistory(s.st, t, m);
    var event := EventOf(s.st, t, m);
    if event.Some? {
      var e := event.value;
      var g := h + [e];
      SerialSnoc(h, e);
      if Announcements.Calls(e, r) && OpenCall(r, h).Some? {
        var u := OpenCall(r, h).value;
        InsideIsOpen(o, r, s, u);
        assert ThreadOk(o, s.st, t) && s.st.pcs[t].Notify?;
        OpenIffAsked(o, h, t);
        assert false;
      }
      forall k | 0 <= k < |g| && Announcements.Calls(g[k], r) ensures OpenCall(r, g[..k]) == None {
        assert g[..k] == h[..k];
        assert k == |h| ==> h[..k] == h;
      }
    }
  }

  lemma {:induction false} SerialApart(o: Origin<DefineSet>, r: nat, s: Logs, run: seq<(nat, LogsMove)>)
    requires Sane(o, r, s) && CanMoves(r, s, run) && Apart(r, s.st.history) && Serial(Moves(r, s, run).st.history)
    ensures Apart(r, Moves(r, s, run).st.history)
    decreases run
  {
    if run != [] {
      var t, m := run[0].0, run[0].1;
      var next := DoMove(r, s, t, m);
      HistoryGrowsAll(r, next, run[1..]);
      SerialPrefix(next.st.history, Moves(r, next, run[1..]).st.history);
      if m.Act? {
        SaneAct(o, r, s, t);
        MoveShape(r, s, t, m);
      } else {
        SaneMove(o, r, s, t, m.m);
        SerialApartMove(o, r, s, t, m.m);
      }
      hide Sane, DoMove, CanMove, Apart, Serial;
      SerialApart(o, r, next, run[1..]);
    }
  }

  lemma SerialPrefix(g: History, h: History)
    requires Serial(h) && g <= h
    ensures Serial(g)
  {
    forall k, t | 0 <= k < |g| && g[k].Began? ensures Asked(g[..k], t) == None {
      assert h[..k] == g[..k] && h[k] == g[k];
    }
  }

  /** When settings do not overlap, the loggers match the variable whenever none is under
      way, whichever threads make them. */
  lemma SerialCallsMatch(o: Origin<DefineSet>, vs: map<string, LoggerView>, r: nat, threads: nat, run: seq<(nat, LogsMove)>)
    requires Config.Ordered(o.cbs, o.last) && AllMatch(vs, o.val) && r in o.cbs && CanMoves(r, Begin(o, vs, threads), run)
    requires var h := Moves(r, Begin(o, vs, threads), run).st.history; Serial(h) && Stays(r, h) && OpenBy(h) == None
    ensures var end := Moves(r, Begin(o, vs, threads), run); AllMatch(end.views, end.st.val)
  {
    var end := Moves(r, Begin(o, vs, threads), run);
    BeginOk(o, vs, r, threads);
    SaneRun(o, r, Begin(o, vs, threads), run);
    SerialApart(o, r, Begin(o, vs, threads), run);
    if OpenCall(r, end.st.history).Some? {
      InsideIsOpen(o, r, end, OpenCall(r, end.st.history).value);
      assert false;
    }
    hide Moves, CanMoves;
    CallsApartRefine(o, vs, r, threads, run);
    SerialMatch(vs, o, r, end.st.history);
  }

  // ---------------------------------------------------------------- calls in any order

  function StepsOf(done: seq<(nat, LoggerStep)>): seq<LoggerStep> {
    if done == [] then [] else [done[0].1] + StepsOf(done[1..])
  }

  // What thread t has done, in order.
  function StepsBy(done: seq<(nat, LoggerStep)>, t: nat): seq<LoggerStep> {
    if done == [] then [] else (if done[0].0 == t then [done[0].1] else []) + StepsBy(done[1..], t)
  }

  // The scripts of all calls of r that thread t has made, one after the other.
  function ScriptsBy(r: nat, h: History, t: nat): seq<LoggerStep> {
    if h == [] then []
    else
      var e := h[|h| - 1];
      ScriptsBy(r, h[..|h| - 1], t) + (if Announcements.Calls(e, r) && e.t == t then Script(e.before, e.after) else [])
  }

  ghost predicate Accounted(vs: map<string, LoggerView>, r: nat, s: Logs) {
    s.views == StepAll(vs, StepsOf(s.done)) &&
    forall t :: 0 <= t < |s.todo| ==> StepsBy(s.done, t) + s.todo[t] == ScriptsBy(r, s.st.history, t)
  }

  lemma {:induction false} StepsSnoc(done: seq<(nat, LoggerStep)>, t: nat, st: LoggerStep, u: nat)
    ensures StepsOf(done + [(t, st)]) == StepsOf(done) + [st]
    ensures StepsBy(done + [(t, st)], u) == StepsBy(done, u) + if t == u then [st] else []
  {
    if done == [] {
      assert done + [(t, st)] == [(t, st)];
      assert [(t, st)][1..] == [];
    } else {
      assert (done + [(t, st)])[1..] == done[1..] + [(t, st)];
      StepsSnoc(done[1..], t, st, u);
    }
  }

  lemma AccountedAct(vs: map<string, LoggerView>, r: nat, s: Logs, t: nat)
    requires Accounted(vs, r, s) && CanMove(r, s, t, Act)
    ensures Accounted(vs, r, DoMove(r, s, t, Act))
  {
    var st := s.todo[t][0];
    var s' := DoMove(r, s, t, Act);
    assert StepAll(Step(s.views, st), []) == Step(s.views, st);
    assert [st][1..] == [];
    StepsSnoc(s.done, t, st, t);
    StepConcat(vs, StepsOf(s.done), [st]);
    hide Step, StepsOf, StepsBy, ScriptsBy;
    forall u | 0 <= u < |s'.todo| ensures StepsBy(s'.done, u) + s'.todo[u] == ScriptsBy(r, s'.st.history, u) {
      StepsSnoc(s.done, t, st, u);
      if u == t {
        assert [st] + s.todo[t][1..] == s.todo[t];
        Assoc(StepsBy(s.done, t), [st], s.todo[t][1..]);
      } else {
        assert StepsBy(s.done, u) + [] == StepsBy(s.done, u);
      }
    }
  }

  lemma ScriptsSnoc(r: nat, h: History, e: Event<DefineSet>, t: nat)
    ensures ScriptsBy(r, h + [e], t) ==
      ScriptsBy(r, h, t) + if Announcements.Calls(e, r) && e.t == t then Script(e.before, e.after) else []
  {
    assert (h + [e])[..|h|] == h;
  }

  lemma AccountedMove(o: Origin<DefineSet>, vs: map<string, LoggerView>, r: nat, s: Logs, t: nat, m: Move<DefineSet>)
    requires Sane(o, r, s) && Accounted(vs, r, s) && CanMove(r, s, t, Var(m))
    ensures Accounted(vs, r, DoMove(r, s, t, Var(m)))
  {
    var s' := DoMove(r, s, t, Var(m));
    MoveShape(r, s, t, Var(m));
    StepHistory(s.st, t, m);
    OwnPlace(o, r, s, t, m);
    var e := EventOf(s.st, t, m);
    assert s'.st == Do(s.st, t, m) && s'.views == s.views && s'.done == s.done;
    assert !Inside(r, s, t) ==> s.todo[t] == [];
    assert m.Return? ==> s.todo[t] == [];
    hide Inv, Do, Can, DoMove, CanMove, EventOf, Script, StepsOf, StepsBy, ScriptsBy, StepAll, Inside;
    forall u | 0 <= u < |s'.todo| ensures StepsBy(s'.done, u) + s'.todo[u] == ScriptsBy(r, s'.st.history, u) {
      assert StepsBy(s.done, u) + s.todo[u] == ScriptsBy(r, s.st.history, u);
      if e.Some? {
        ScriptsSnoc(r, s.st.history, e.value, u);
        assert ScriptsBy(r, s.st.history, u) + [] == ScriptsBy(r, s.st.history, u);
      }
      assert StepsBy(s.done, u) + [] == StepsBy(s.done, u);
    }
  }

  lemma {:induction false} AccountedRun(o: Origin<DefineSet>, vs: map<string, LoggerView>, r: nat, s: Logs, run: seq<(nat, LogsMove)>)
    requires Sane(o, r, s) && Accounted(vs, r, s) && CanMoves(r, s, run)
    ensures Accounted(vs, r, Moves(r, s, run))
    decreases run
  {
    if run != [] {
      var t, m := run[0].0, run[0].1;
      if m.Act? {
        SaneAct(o, r, s, t);
        AccountedAct(vs, r, s, t);
      } else {
        SaneMove(o, r, s, t, m.m);
        AccountedMove(o, vs, r, s, t, m.m);
      }
      hide Sane, Accounted, DoMove, CanMove;
      AccountedRun(o, vs, r, DoMove(r, s, t, m), run[1..]);
    }
  }

  /** In every run, however the calls of the listener overlap: the steps done are the
      threads' scripts, each in its own order, and every logger shows what the operations
      on it add up to: the last level set, the last usable pattern, and the appenders added
      since the last clear. */
  lemma LoggersAddUp(o: Origin<DefineSet>, vs: map<string, LoggerView>, r: nat, threads: nat, run: seq<(nat, LogsMove)>, n: string)
    requires Config.Ordered(o.cbs, o.last) && CanMoves(r, Begin(o, vs, threads), run) && Inheriting(ViewIn(vs, n))
    ensures var end := Moves(r, Begin(o, vs, threads), run);
      var ops, v, w := OpsOn(StepsOf(end.done), n), ViewIn(vs, n), ViewIn(end.views, n);
      (forall t :: 0 <= t < |end.todo| ==> StepsBy(end.done, t) + end.todo[t] == ScriptsBy(r, end.st.history, t)) &&
      (ops == [] ==> Lookup(end.views, n) == Lookup(vs, n)) &&
      w.level == LevelAfter(v.level, ops) && w.pattern == PatternAfter(v.pattern, ops) &&
      Holding(w, if LoggerOp.Clear in ops then [] else v.appenders, AddedAfter([], ops))
  {
    var end := Moves(r, Begin(o, vs, threads), run);
    BeginOk(o, vs, r, threads);
    AccountedRun(o, vs, r, Begin(o, vs, threads), run);
    var steps := StepsOf(end.done);
    StepsAt(vs, steps, n);
    OpsAddUp(ViewIn(vs, n), OpsOn(steps, n));
    hide Moves, CanMoves, StepsOf, StepsBy, ScriptsBy, OpsOn, StepAll, Holding, AddedAfter, LevelAfter, PatternAfter;
    assert PerformAll(ViewIn(vs, n), []) == ViewIn(vs, n);
  }
}
