/** What the announcements of a history come to when the reconciling listener deals with
    them one after the other, and when that matches the value of the variable. */
module Announcements {
  import opened Basics
  import opened Logging
  import opened LogConfig
  import opened Reconciling
  import opened SetValueRuns
  import Config

  type History = seq<Event<DefineSet>>

  // The call of listener r that an event is, if it is one.
  predicate Calls(e: Event<DefineSet>, r: nat) {
    e.Told? && e.id == r
  }

  // What the loggers show when r, the reconciling listener, has dealt with each call in turn.
  function ViewsAt(vs: map<string, LoggerView>, r: nat, h: History): map<string, LoggerView> {
    if h == [] then vs
    else
      var e := h[|h| - 1];
      if Calls(e, r) then Reconcile(ViewsAt(vs, r, h[..|h| - 1]), e.before, e.after) else ViewsAt(vs, r, h[..|h| - 1])
  }

  // A call of the listener that changes the definition of n.
  predicate Changes(e: Event<DefineSet>, r: nat, n: string) {
    Calls(e, r) && Find(e.before, n) != Find(e.after, n)
  }

  // The definition last announced for n.
  function LastFor(val: DefineSet, r: nat, h: History, n: string): Option<LogDefine> {
    if h == [] then Find(val, n)
    else if Changes(h[|h| - 1], r, n) then Find(h[|h| - 1].after, n)
    else LastFor(val, r, h[..|h| - 1], n)
  }

  // Whether n was defined to begin with or any announcement changed its definition.
  predicate Seen(val: DefineSet, r: nat, h: History, n: string) {
    Find(val, n).Some? || exists k :: 0 <= k < |h| && Changes(h[k], r, n)
  }

  // n shows the definition it was given, or is silent when its definition was taken away.
  predicate Shows(vs: map<string, LoggerView>, n: string, d: Option<LogDefine>) {
    match d
    case Some(def) => n in vs && Matches(vs[n], def)
    case None => Silent(vs, n)
  }

  lemma ReconcileShows(vs: map<string, LoggerView>, before: DefineSet, after: DefineSet, n: string)
    ensures Find(before, n) != Find(after, n) ==> Shows(Reconcile(vs, before, after), n, Find(after, n))
    ensures Find(before, n) == Find(after, n) ==> Lookup(Reconcile(vs, before, after), n) == Lookup(vs, n)
  {
    ReconcileAt(vs, before, after, n);
    if Find(after, n).Some? {
      ConfiguredMatches(ViewIn(vs, n), Find(after, n).value);
    }
    hide Reconcile, Matches, Configured;
  }

  lemma SeenSnoc(val: DefineSet, r: nat, h: History, e: Event<DefineSet>, n: string)
    ensures Seen(val, r, h + [e], n) <==> Seen(val, r, h, n) || Changes(e, r, n)
  {
    hide Changes;
    assert (h + [e])[|h|] == e;
    if k :| 0 <= k < |h| && Changes(h[k], r, n) {
      assert (h + [e])[k] == h[k];
    }
  }

  /** Then every logger shows the definition last announced for its name, is silent if that
      announcement took the definition away, and is untouched if none concerned it. */
  lemma {:induction false} AnnouncedViews(vs: map<string, LoggerView>, val: DefineSet, r: nat, h: History, n: string)
    requires AllMatch(vs, val)
    ensures if Seen(val, r, h, n) then Shows(ViewsAt(vs, r, h), n, LastFor(val, r, h, n))
            else Lookup(ViewsAt(vs, r, h), n) == Lookup(vs, n)
  {
    hide Reconcile, Matches;
    if h == [] {
      FindNone(val, n);
    } else {
      var g, e := h[..|h| - 1], h[|h| - 1];
      assert h == g + [e];
      AnnouncedViews(vs, val, r, g, n);
      SeenSnoc(val, r, g, e, n);
      if Calls(e, r) {
        ReconcileShows(ViewsAt(vs, r, g), e.before, e.after, n);
      }
      hide Seen, AllMatch;
    }
  }

  // ---------------------------------------------------------------- a listener that stays

  // Nobody removes listener r.
  predicate Stays(r: nat, h: History) {
    forall k :: 0 <= k < |h| ==> !h[k].Cleared? && !(h[k].Removed? && h[k].id == r)
  }

  lemma {:induction false} WithoutOther(cbs: seq<nat>, id: nat, r: nat)
    requires r in cbs && r != id
    ensures r in Config.Without(cbs, id)
  {
    if cbs[0] != r {
      WithoutOther(cbs[1..], id, r);
    }
  }

  lemma {:induction false} StaysRegistered(o: Origin<DefineSet>, r: nat, h: History)
    requires r in o.cbs && Stays(r, h)
    ensures r in CbsAt(o, h)
  {
    if h != [] {
      var g, e := h[..|h| - 1], h[|h| - 1];
      StaysRegistered(o, r, g);
      if e.Removed? {
        WithoutOther(CbsAt(o, g), e.id, r);
      }
    }
  }

  lemma {:induction false} BeforePrefix(h: History, t: nat)
    ensures Before(h, t) <= h && (h != [] ==> |Before(h, t)| < |h|)
  {
    if h != [] {
      BeforePrefix(h[..|h| - 1], t);
    }
  }

  lemma {:induction false} ToldInHistory(h: History, t: nat, c: (nat, DefineSet, DefineSet))
    requires c in ToldSince(h, t)
    ensures Told(t, c.0, c.1, c.2) in h
  {
    var g, e := h[..|h| - 1], h[|h| - 1];
    if c in ToldSince(g, t) {
      ToldInHistory(g, t, c);
      assert Told(t, c.0, c.1, c.2) in g;
    }
    assert h == g + [e];
  }

  // A value that is stored was announced to a listener that stays.
  lemma StoredWasTold(o: Origin<DefineSet>, r: nat, h: History, t: nat, v: DefineSet)
    requires Fair(o, h, Stored(t, v)) && r in o.cbs && Stays(r, h)
    ensures (r, MetValue(o, h, t), v) in ToldSince(h, t)
  {
    var p := Before(h, t);
    BeforePrefix(h, t);
    assert forall k :: 0 <= k < |p| ==> p[k] == h[k];
    StaysRegistered(o, r, p);
    var cbs := CbsAt(o, p);
    var k :| 0 <= k < |cbs| && cbs[k] == r;
    assert SetValueRuns.Calls(cbs, MetValue(o, h, t), v)[k] == (r, MetValue(o, h, t), v);
  }

  lemma AllFairPrefix(o: Origin<DefineSet>, h: History, p: History)
    requires AllFair(o, h) && p <= h
    ensures AllFair(o, p)
  {
    hide Fair;
    forall k | 0 <= k < |p| ensures Fair(o, p[..k], p[k]) {
      assert p[..k] == h[..k] && p[k] == h[k];
    }
  }

  lemma SeenGrows(val: DefineSet, r: nat, p: History, h: History, n: string)
    requires p <= h && Seen(val, r, p, n)
    ensures Seen(val, r, h, n)
  {
    hide Changes;
    if k :| 0 <= k < |p| && Changes(p[k], r, n) {
      assert h[k] == p[k];
    }
  }

  // A name the variable defines was seen.
  lemma {:induction false} DefinedSeen(o: Origin<DefineSet>, r: nat, h: History, n: string)
    requires AllFair(o, h) && r in o.cbs && Stays(r, h) && Find(ValueAt(o, h), n).Some?
    ensures Seen(o.val, r, h, n)
    decreases |h|
  {
    if h != [] {
      var g, e := h[..|h| - 1], h[|h| - 1];
      assert Fair(o, h[..|h| - 1], h[|h| - 1]);
      AllFairPrefix(o, h, g);
      if e.Stored? {
        StoredWasTold(o, r, g, e.t, e.v);
        ToldInHistory(g, e.t, (r, MetValue(o, g, e.t), e.v));
        var k :| 0 <= k < |g| && g[k] == Told(e.t, r, MetValue(o, g, e.t), e.v);
        assert h[k] == g[k];
        if !Changes(h[k], r, n) {
          var p := Before(g, e.t);
          BeforePrefix(g, e.t);
          assert forall j :: 0 <= j < |p| ==> p[j] == g[j] == h[j];
          AllFairPrefix(o, g, p);
          DefinedSeen(o, r, p, n);
          SeenGrows(o.val, r, p, h, n);
        }
      } else {
        DefinedSeen(o, r, g, n);
        SeenGrows(o.val, r, g, h, n);
      }
    }
  }

  // The last usable formatter text announced for n, or the pattern there was.
  function PatternAt(pattern: string, r: nat, h: History, n: string): string {
    if h == [] then pattern
    else
      var e := h[|h| - 1];
      if Changes(e, r, n) && Find(e.after, n).Some? && Usable(Find(e.after, n).value.formatter) then Find(e.after, n).value.formatter
      else PatternAt(pattern, r, h[..|h| - 1], n)
  }

  lemma {:induction false} PatternFollows(vs: map<string, LoggerView>, r: nat, h: History, n: string)
    ensures ViewIn(ViewsAt(vs, r, h), n).pattern == PatternAt(ViewIn(vs, n).pattern, r, h, n)
  {
    if h != [] {
      var g, e := h[..|h| - 1], h[|h| - 1];
      PatternFollows(vs, r, g, n);
      if Calls(e, r) {
        ReconcileAt(ViewsAt(vs, r, g), e.before, e.after, n);
      }
      hide Reconcile, Find, Usable;
    }
  }

  // On a logger with this pattern, d describes what the last definition left there.
  predicate Alike(pattern: string, last: Option<LogDefine>, d: LogDefine) {
    (Usable(d.formatter) ==> d.formatter == pattern) &&
    match last
    case None => d.level == 0 && d.appenders == []
    case Some(e) => d.level == e.level && AppenderShapes(d.appenders, pattern) == AppenderShapes(e.appenders, pattern)
  }

  lemma ShownMatchesIff(v: LoggerView, last: Option<LogDefine>, d: LogDefine)
    requires match last case Some(e) => Matches(v, e) case None => v.level == 0 && v.appenders == []
    ensures Matches(v, d) <==> Alike(v.pattern, last, d)
  {
    MatchesIffStable(v, d);
    if last.Some? {
      MatchesIffStable(v, last.value);
    }
    hide Usable, Matches;
  }

  /** When the loggers match the variable, as a condition on the announcements and the
      definitions alone: for each definition in the value, the one last announced for its
      name must have had the same level and the same appenders, and any usable formatter
      text of it must be the last one announced. */
  lemma AnnouncedMatchIff(vs: map<string, LoggerView>, o: Origin<DefineSet>, r: nat, h: History)
    requires AllMatch(vs, o.val) && AllFair(o, h) && r in o.cbs && Stays(r, h)
    ensures AllMatch(ViewsAt(vs, r, h), ValueAt(o, h)) <==>
      forall d :: d in ValueAt(o, h) ==>
        Alike(PatternAt(ViewIn(vs, d.name).pattern, r, h, d.name), LastFor(o.val, r, h, d.name), d)
  {
    var ws, val := ViewsAt(vs, r, h), ValueAt(o, h);
    forall d | d in val
      ensures d.name in ws
      ensures Matches(ws[d.name], d) <==>
        Alike(PatternAt(ViewIn(vs, d.name).pattern, r, h, d.name), LastFor(o.val, r, h, d.name), d)
    {
      FindIff(val, d);
      DefinedSeen(o, r, h, d.name);
      AnnouncedViews(vs, o.val, r, h, d.name);
      PatternFollows(vs, r, h, d.name);
      hide Alike, Matches;
      ShownMatchesIff(ws[d.name], LastFor(o.val, r, h, d.name), d);
    }
  }

  // ---------------------------------------------------------------- calls that do not overlap

  // No setValue begins while another is under way.
  ghost predicate Serial(h: History) {
    forall k, t :: 0 <= k < |h| && h[k].Began? ==> Asked(h[..k], t) == None
  }

  // The thread whose call is under way.
  function OpenBy(h: History): Option<nat> {
    if h == [] then None
    else
      var e := h[|h| - 1];
      if e.Began? then Some(e.t) else if e.Skipped? || e.Stored? then None else OpenBy(h[..|h| - 1])
  }

  lemma SerialSnoc(h: History, e: Event<DefineSet>)
    requires Serial(h + [e])
    ensures Serial(h) && (e.Began? ==> forall t :: Asked(h, t) == None)
  {
    var g := h + [e];
    forall k, t | 0 <= k < |h| && h[k].Began? ensures Asked(h[..k], t) == None {
      assert g[..k] == h[..k] && g[k] == h[k];
    }
    assert g[..|h|] == h && g[|h|] == e;
  }

  lemma FairSnoc(o: Origin<DefineSet>, h: History, e: Event<DefineSet>)
    requires AllFair(o, h + [e])
    ensures AllFair(o, h) && Fair(o, h, e)
  {
    AllFairPrefix(o, h + [e], h);
    assert (h + [e])[..|h|] == h && (h + [e])[|h|] == e;
  }

  lemma {:induction false} OpenIffAsked(o: Origin<DefineSet>, h: History, t: nat)
    requires AllFair(o, h) && Serial(h)
    ensures OpenBy(h) == Some(t) <==> Asked(h, t).Some?
  {
    if h != [] {
      var g, e := h[..|h| - 1], h[|h| - 1];
      assert h == g + [e];
      SerialSnoc(g, e);
      FairSnoc(o, g, e);
      HistorySnoc(g, e, t);
      OpenIffAsked(o, g, t);
      OpenIffAsked(o, g, e.t);
      hide Serial, AllFair, ToldSince, StoredSince;
    }
  }

  predicate WasTold(h: History, t: nat, r: nat) {
    exists k :: 0 <= k < |ToldSince(h, t)| && ToldSince(h, t)[k].0 == r
  }

  // The value the listener was told last, when calls do not overlap.
  ghost function Current(o: Origin<DefineSet>, h: History, r: nat): DefineSet {
    match OpenBy(h)
    case Some(t) => if WasTold(h, t, r) && Asked(h, t).Some? then Asked(h, t).value else ValueAt(o, h)
    case None => ValueAt(o, h)
  }

  lemma WasToldSnoc(h: History, e: Event<DefineSet>, t: nat, r: nat)
    ensures WasTold(h + [e], t, r) <==>
      !(e.t == t && e.Began?) && (WasTold(h, t, r) || (e.t == t && e.Told? && e.id == r))
  {
    HistorySnoc(h, e, t);
    var told := ToldSince(h, t);
    hide ToldSince;
    if e.t == t && e.Told? {
      assert (told + [(e.id, e.before, e.after)])[|told|].0 == e.id;
    }
    if k :| 0 <= k < |told| && told[k].0 == r {
      var more := if e.t == t && e.Told? then [(e.id, e.before, e.after)] else [];
      assert (told + more)[k].0 == r;
    }
  }

  lemma StaysPrefix(r: nat, g: History, e: Event<DefineSet>)
    requires Stays(r, g + [e])
    ensures Stays(r, g)
  {
    assert forall k :: 0 <= k < |g| ==> g[k] == (g + [e])[k];
  }

  lemma CurrentStep(o: Origin<DefineSet>, g: History, e: Event<DefineSet>, r: nat, n: string)
    requires AllFair(o, g + [e]) && Serial(g + [e]) && r in o.cbs && Stays(r, g + [e])
    ensures if Changes(e, r, n) then Find(Current(o, g + [e], r), n) == Find(e.after, n)
            else Find(Current(o, g + [e], r), n) == Find(Current(o, g, r), n)
  {
    hide Serial, AllFair, Stays, ToldSince, StoredSince, Asked, ValueAt, CbsAt, Find;
    SerialSnoc(g, e);
    FairSnoc(o, g, e);
    OpenIffAsked(o, g, e.t);
    HistorySnoc(g, e, e.t);
    VariableSnoc(o, g, e);
    WasToldSnoc(g, e, e.t, r);
    assert OpenBy(g + [e]) == if e.Began? then Some(e.t) else if e.Skipped? || e.Stored? then None else OpenBy(g) by {
      assert (g + [e])[..|g|] == g;
    }
    if e.Stored? {
      StaysPrefix(r, g, e);
      StoredWasTold(o, r, g, e.t, e.v);
    } else if OpenBy(g).Some? {
      HistorySnoc(g, e, OpenBy(g).value);
      WasToldSnoc(g, e, OpenBy(g).value, r);
    }
    hide OpenBy;
  }

  lemma LastForSnoc(val: DefineSet, r: nat, g: History, e: Event<DefineSet>, n: string)
    ensures LastFor(val, r, g + [e], n) == if Changes(e, r, n) then Find(e.after, n) else LastFor(val, r, g, n)
  {
    assert (g + [e])[..|g|] == g;
  }

  lemma {:induction false} LastIsCurrent(o: Origin<DefineSet>, h: History, r: nat, n: string)
    requires AllFair(o, h) && Serial(h) && r in o.cbs && Stays(r, h)
    ensures LastFor(o.val, r, h, n) == Find(Current(o, h, r), n)
  {
    if h != [] {
      var g, e := h[..|h| - 1], h[|h| - 1];
      assert h == g + [e];
      hide Current, Serial, AllFair, Fair, Find, LastFor, Stays, Changes;
      SerialSnoc(g, e);
      FairSnoc(o, g, e);
      StaysPrefix(r, g, e);
      CurrentStep(o, g, e, r, n);
      LastForSnoc(o.val, r, g, e, n);
      LastIsCurrent(o, g, r, n);
    }
  }

  // When calls do not overlap, what was announced matches the value whenever none is under way.
  lemma SerialMatch(vs: map<string, LoggerView>, o: Origin<DefineSet>, r: nat, h: History)
    requires AllMatch(vs, o.val) && AllFair(o, h) && r in o.cbs && Stays(r, h) && Serial(h) && OpenBy(h) == None
    ensures AllMatch(ViewsAt(vs, r, h), ValueAt(o, h))
  {
    var val := ValueAt(o, h);
    forall d | d in val ensures d.name in ViewsAt(vs, r, h) && Matches(ViewsAt(vs, r, h)[d.name], d) {
      FindIff(val, d);
      LastIsCurrent(o, h, r, d.name);
      DefinedSeen(o, r, h, d.name);
      AnnouncedViews(vs, o.val, r, h, d.name);
    }
  }

  const NOTHING: DefineSet := []

  function OverlapHistory(id: nat, v: DefineSet, w: DefineSet): History {
    [Began(0, v), Began(1, w), Told(0, id, NOTHING, v), Returned(0, id), Told(1, id, NOTHING, w), Returned(1, id),
     Stored(1, w), Stored(0, v)]
  }

  // The logger shows the definition announced last.
  lemma OverlapViews(id: nat, d: LogDefine, e: LogDefine)
    requires d.name == e.name
    ensures var vs := ViewsAt(map[], id, OverlapHistory(id, Only(d), Only(e))); d.name in vs && vs[d.name].level == e.level
  {
    var h := OverlapHistory(id, Only(d), Only(e));
    var vs := ViewsAt(map[], id, h[..4]);
    assert h[..8] == h && h[..8][..7] == h[..7] && h[..7][..6] == h[..6] && h[..6][..5] == h[..5] && h[..5][..4] == h[..4];
    assert ViewsAt(map[], id, h) == ViewsAt(map[], id, h[..7]) == ViewsAt(map[], id, h[..6]) == ViewsAt(map[], id, h[..5]);
    assert ViewsAt(map[], id, h[..5]) == Reconcile(vs, NOTHING, Only(e));
    hide ViewsAt;
    ReconcileAt(vs, NOTHING, Only(e), d.name);
    hide Reconcile;
    assert Lookup(Reconcile(vs, NOTHING, Only(e)), d.name) == Some(Configured(ViewIn(vs, d.name), e));
  }

  /** When calls overlap they need not match.  Two threads set "logs" from nothing to two
      definitions of one name with different levels: in the run of StaleAnnouncement the
      variable ends at the first and the logger at the second, and setting the variable to
      its own value again changes nothing. */
  lemma OverlapMismatch(id: nat, d: LogDefine, e: LogDefine)
    requires d.name == e.name && d.level != e.level
    ensures var o: Origin<DefineSet> := Origin(NOTHING, [id], id);
      CanRun(Start(o, 2), Overlap(Only(d), Only(e))) &&
      var end := After(Start(o, 2), Overlap(Only(d), Only(e)));
      var vs := ViewsAt(map[], id, end.history);
      end.val == Only(d) && end.pcs == [Idle, Idle] && AllMatch(map[], o.val) &&
      d.name in vs && vs[d.name].level == e.level && !AllMatch(vs, end.val) &&
      SetLogs(LogsState(end.val, vs), end.val) == LogsState(end.val, vs)
  {
    StaleAnnouncement(id, NOTHING, Only(d), Only(e));
    OverlapViews(id, d, e);
    hide ViewsAt, Reconcile, CanRun, After;
    assert d in Only(d);
  }
}
