/** One configuration variable used by any number of threads at once: setValue with its
    read phase, gap and write phase, and the operations that edit the listeners. */
module SetValueRuns {
  import opened Basics
  import opened Config

  datatype Edit = Add | Del(id: nat) | Clear

  // Where a thread is.
  datatype Pc<V> =
    | Idle
    | Compare(v: V)                  // read lock taken
    | Notify(v: V, k: nat)           // between listener calls
    | InCall(v: V, k: nat, id: nat)  // inside the call of the k-th listener, id
    | Gap(v: V)                      // read lock released
    | Store(v: V)                    // write lock taken
    | Editing(e: Edit)               // write lock taken

  /** What can be seen of a run: setValue begins (and takes the read lock), finds the value
      there already, tells a listener, hears it return, or stores; a listener comes or goes. */
  datatype Event<V> =
    | Began(t: nat, v: V)
    | Skipped(t: nat, v: V)
    | Told(t: nat, id: nat, before: V, after: V)
    | Returned(t: nat, id: nat)
    | Stored(t: nat, v: V)
    | Added(t: nat, id: nat)
    | Removed(t: nat, id: nat)
    | Cleared(t: nat)

  // The variable before the run: its value, its listeners, and the last id issued.
  datatype Origin<V> = Origin(val: V, cbs: seq<nat>, last: nat)

  datatype State<V> = State(val: V, cbs: seq<nat>, last: nat, pcs: seq<Pc<V>>, history: seq<Event<V>>)

  // AddElsewhere is a listener registered with another variable of the same type.
  datatype Move<V> =
    | BeginSet(v: V) | Check | Call | Return | EndRead | LockWrite | DoStore | BeginEdit(e: Edit) | DoEdit | AddElsewhere

  predicate Reads<V>(pc: Pc<V>) {
    pc.Compare? || pc.Notify? || pc.InCall?
  }

  predicate Writes<V>(pc: Pc<V>) {
    pc.Store? || pc.Editing?
  }

  // No other thread writes (for a reader), or none reads or writes (for a writer).
  predicate Free<V>(s: State<V>, t: nat, exclusive: bool) {
    forall u :: 0 <= u < |s.pcs| && u != t ==> !Writes(s.pcs[u]) && (exclusive ==> !Reads(s.pcs[u]))
  }

  predicate Can<V>(s: State<V>, t: nat, m: Move<V>) {
    t < |s.pcs| &&
    match m
    case BeginSet(v) => s.pcs[t].Idle? && Free(s, t, false)
    case Check => s.pcs[t].Compare?
    case Call => s.pcs[t].Notify? && s.pcs[t].k < |s.cbs|
    case Return => s.pcs[t].InCall?
    case EndRead => s.pcs[t].Notify? && s.pcs[t].k >= |s.cbs|
    case LockWrite => s.pcs[t].Gap? && Free(s, t, true)
    case DoStore => s.pcs[t].Store?
    case BeginEdit(e) => s.pcs[t].Idle? && Free(s, t, true)
    case DoEdit => s.pcs[t].Editing?
    case AddElsewhere => s.pcs[t].Idle?
  }

  function To<V>(s: State<V>, t: nat, pc: Pc<V>): State<V>
    requires t < |s.pcs|
  {
    s.(pcs := s.pcs[t := pc])
  }

  function Record<V>(s: State<V>, e: Event<V>): State<V> {
    s.(history := s.history + [e])
  }

  function Do<V(==)>(s: State<V>, t: nat, m: Move<V>): State<V>
    requires Can(s, t, m)
  {
    var pc := s.pcs[t];
    match m
    case BeginSet(v) => Record(To(s, t, Compare(v)), Began(t, v))
    case Check => if s.val == pc.v then Record(To(s, t, Idle), Skipped(t, pc.v)) else To(s, t, Notify(pc.v, 0))
    case Call => Record(To(s, t, InCall(pc.v, pc.k, s.cbs[pc.k])), Told(t, s.cbs[pc.k], s.val, pc.v))
    case Return => Record(To(s, t, Notify(pc.v, pc.k + 1)), Returned(t, pc.id))
    case EndRead => To(s, t, Gap(pc.v))
    case LockWrite => To(s, t, Store(pc.v))
    case DoStore => Record(To(s, t, Idle).(val := pc.v), Stored(t, pc.v))
    case BeginEdit(e) => To(s, t, Editing(e))
    case AddElsewhere => s.(last := s.last + 1)
    case DoEdit =>
      var next := To(s, t, Idle);
      match pc.e
      case Add => Record(next.(last := s.last + 1, cbs := s.cbs + [s.last + 1]), Added(t, s.last + 1))
      case Del(id) => Record(next.(cbs := Without(s.cbs, id)), Removed(t, id))
      case Clear => Record(next.(cbs := []), Cleared(t))
  }

  // ---------------------------------------------------------------- reading the history

  // The value of the variable after a history.
  function ValueAt<V>(o: Origin<V>, h: seq<Event<V>>): V {
    if h == [] then o.val
    else if h[|h| - 1].Stored? then h[|h| - 1].v
    else ValueAt(o, h[..|h| - 1])
  }

  function Edited<V>(cbs: seq<nat>, e: Event<V>): seq<nat> {
    match e
    case Added(_, id) => cbs + [id]
    case Removed(_, id) => Without(cbs, id)
    case Cleared(_) => []
    case _ => cbs
  }

  // The listeners registered after a history, in id order.
  function CbsAt<V>(o: Origin<V>, h: seq<Event<V>>): seq<nat> {
    if h == [] then o.cbs else Edited(CbsAt(o, h[..|h| - 1]), h[|h| - 1])
  }

  // The last id issued to this variable in a history.
  function LastAt<V>(o: Origin<V>, h: seq<Event<V>>): nat {
    if h == [] then o.last
    else if h[|h| - 1].Added? then h[|h| - 1].id
    else LastAt(o, h[..|h| - 1])
  }

  // The history when thread t last began a setValue.
  function Before<V>(h: seq<Event<V>>, t: nat): seq<Event<V>> {
    if h == [] then []
    else if h[|h| - 1].t == t && h[|h| - 1].Began? then h[..|h| - 1]
    else Before(h[..|h| - 1], t)
  }

  // The value of the setValue that thread t has begun and not ended.
  function Asked<V>(h: seq<Event<V>>, t: nat): Option<V> {
    if h == [] then None
    else
      var e := h[|h| - 1];
      if e.t == t && e.Began? then Some(e.v)
      else if e.t == t && (e.Skipped? || e.Stored?) then None
      else Asked(h[..|h| - 1], t)
  }

  // What thread t has told listeners since it last began a setValue.
  function ToldSince<V>(h: seq<Event<V>>, t: nat): seq<(nat, V, V)> {
    if h == [] then []
    else
      var e := h[|h| - 1];
      if e.t == t && e.Began? then []
      else ToldSince(h[..|h| - 1], t) + (if e.t == t && e.Told? then [(e.id, e.before, e.after)] else [])
  }

  // Whether anyone has stored since thread t last began a setValue.
  predicate StoredSince<V>(h: seq<Event<V>>, t: nat) {
    h != [] && !(h[|h| - 1].t == t && h[|h| - 1].Began?) && (h[|h| - 1].Stored? || StoredSince(h[..|h| - 1], t))
  }

  // Listeners cbs told, in order, that before becomes v.
  function Calls<V>(cbs: seq<nat>, before: V, v: V): (cs: seq<(nat, V, V)>)
    ensures |cs| == |cbs| && forall j :: 0 <= j < |cs| ==> cs[j] == (cbs[j], before, v)
  {
    if cbs == [] then [] else [(cbs[0], before, v)] + Calls(cbs[1..], before, v)
  }

  predicate InOrder(ids: seq<nat>) {
    forall i, j :: 0 <= i < j < |ids| ==> ids[i] < ids[j]
  }

  // The listeners and the value thread t met when it took the read lock.
  function MetCbs<V>(o: Origin<V>, h: seq<Event<V>>, t: nat): seq<nat> {
    CbsAt(o, Before(h, t))
  }

  function MetValue<V>(o: Origin<V>, h: seq<Event<V>>, t: nat): V {
    ValueAt(o, Before(h, t))
  }

  /** What is true of each event when it happens.  A call ends without effect only if the
      variable has its value already.  A listener that is told is registered, and is told
      the value the variable has at that moment and a different new one.  A value is stored
      only after exactly the listeners registered when the call began were told, once each
      and in id order, of the value the variable had then; and that is the value replaced
      unless someone stored in between.  Ids are issued in ascending order, to this variable
      and others.  The listener that returns is the one told last. */
  ghost predicate Fair<V>(o: Origin<V>, h: seq<Event<V>>, e: Event<V>) {
    match e
    case Began(t, _) => Asked(h, t) == None
    case Skipped(t, v) => Asked(h, t) == Some(v) && v == ValueAt(o, h) && ToldSince(h, t) == []
    case Told(t, id, before, after) =>
      Asked(h, t) == Some(after) && before == ValueAt(o, h) != after && id in CbsAt(o, h)
    case Stored(t, v) =>
      Asked(h, t) == Some(v) && MetValue(o, h, t) != v && InOrder(MetCbs(o, h, t)) &&
      ToldSince(h, t) == Calls(MetCbs(o, h, t), MetValue(o, h, t), v) &&
      (ValueAt(o, h) == MetValue(o, h, t) || StoredSince(h, t))
    case Returned(t, id) => ToldSince(h, t) != [] && ToldSince(h, t)[|ToldSince(h, t)| - 1].0 == id
    case Added(_, id) => id > LastAt(o, h) && forall x :: x in CbsAt(o, h) ==> x < id
    case _ => true
  }

  ghost predicate AllFair<V>(o: Origin<V>, h: seq<Event<V>>) {
    forall k :: 0 <= k < |h| ==> Fair(o, h[..k], h[k])
  }

  // ---------------------------------------------------------------- the invariant

  // A reader still meets what it met when it began.
  ghost predicate Meets<V>(o: Origin<V>, s: State<V>, t: nat) {
    MetCbs(o, s.history, t) == s.cbs && MetValue(o, s.history, t) == s.val
  }

  ghost predicate ThreadOk<V>(o: Origin<V>, s: State<V>, t: nat)
    requires t < |s.pcs|
  {
    match s.pcs[t]
    case Idle => Asked(s.history, t) == None
    case Editing(_) => Asked(s.history, t) == None
    case Compare(v) => Asked(s.history, t) == Some(v) && Meets(o, s, t) && ToldSince(s.history, t) == []
    case Notify(v, k) =>
      Asked(s.history, t) == Some(v) && Meets(o, s, t) && s.val != v && k <= |s.cbs| &&
      ToldSince(s.history, t) == Calls(s.cbs[..k], s.val, v)
    case InCall(v, k, id) =>
      Asked(s.history, t) == Some(v) && Meets(o, s, t) && s.val != v && k < |s.cbs| && s.cbs[k] == id &&
      ToldSince(s.history, t) == Calls(s.cbs[..k + 1], s.val, v)
    case Gap(v) => Announced(o, s, t, v)
    case Store(v) => Announced(o, s, t, v)
  }

  ghost predicate Announced<V>(o: Origin<V>, s: State<V>, t: nat, v: V) {
    Asked(s.history, t) == Some(v) && MetValue(o, s.history, t) != v && InOrder(MetCbs(o, s.history, t)) &&
    ToldSince(s.history, t) == Calls(MetCbs(o, s.history, t), MetValue(o, s.history, t), v) &&
    (s.val == MetValue(o, s.history, t) || StoredSince(s.history, t))
  }

  ghost predicate Exclusion<V>(s: State<V>) {
    forall t :: 0 <= t < |s.pcs| && Writes(s.pcs[t]) ==> Free(s, t, true)
  }

  // The variable is what the history made of it.
  ghost predicate Follows<V>(o: Origin<V>, s: State<V>) {
    s.val == ValueAt(o, s.history) && s.cbs == CbsAt(o, s.history) && s.last >= LastAt(o, s.history)
  }

  ghost predicate Inv<V>(o: Origin<V>, s: State<V>) {
    Exclusion(s) && Ordered(s.cbs, s.last) && Follows(o, s) && AllFair(o, s.history) &&
    forall t :: 0 <= t < |s.pcs| ==> ThreadOk(o, s, t)
  }

  lemma AllFairSnoc<V>(o: Origin<V>, h: seq<Event<V>>, e: Event<V>)
    requires AllFair(o, h) && Fair(o, h, e)
    ensures AllFair(o, h + [e])
  {
    hide Fair;
    var g := h + [e];
    forall k | 0 <= k < |g| ensures Fair(o, g[..k], g[k]) {
      assert g[..k] == h[..k];
      assert h[..|h|] == h;
    }
  }

  // What an event does to the variable.
  lemma VariableSnoc<V>(o: Origin<V>, h: seq<Event<V>>, e: Event<V>)
    ensures ValueAt(o, h + [e]) == if e.Stored? then e.v else ValueAt(o, h)
    ensures LastAt(o, h + [e]) == if e.Added? then e.id else LastAt(o, h)
    ensures CbsAt(o, h + [e]) == Edited(CbsAt(o, h), e)
  {
    assert (h + [e])[..|h|] == h;
  }

  // What an event does to what thread t has done since it last began a setValue.
  lemma HistorySnoc<V>(h: seq<Event<V>>, e: Event<V>, t: nat)
    ensures Before(h + [e], t) == if e.t == t && e.Began? then h else Before(h, t)
    ensures Asked(h + [e], t) ==
      if e.t == t && e.Began? then Some(e.v) else if e.t == t && (e.Skipped? || e.Stored?) then None else Asked(h, t)
    ensures ToldSince(h + [e], t) ==
      if e.t == t && e.Began? then []
      else ToldSince(h, t) + (if e.t == t && e.Told? then [(e.id, e.before, e.after)] else [])
    ensures StoredSince(h + [e], t) <==> !(e.t == t && e.Began?) && (e.Stored? || StoredSince(h, t))
  {
    assert (h + [e])[..|h|] == h;
  }

  // The event a step adds to the history, if any.
  function EventOf<V(==)>(s: State<V>, t: nat, m: Move<V>): Option<Event<V>>
    requires Can(s, t, m)
  {
    var pc := s.pcs[t];
    match m
    case BeginSet(v) => Some(Began(t, v))
    case Check => if s.val == pc.v then Some(Skipped(t, pc.v)) else None
    case Call => Some(Told(t, s.cbs[pc.k], s.val, pc.v))
    case Return => Some(Returned(t, pc.id))
    case DoStore => Some(Stored(t, pc.v))
    case DoEdit => Some(match pc.e case Add => Added(t, s.last + 1) case Del(id) => Removed(t, id) case Clear => Cleared(t))
    case _ => None
  }

  lemma StepHistory<V>(s: State<V>, t: nat, m: Move<V>)
    requires Can(s, t, m)
    ensures Do(s, t, m).history == match EventOf(s, t, m) case Some(e) => s.history + [e] case None => s.history
    ensures EventOf(s, t, m).Some? ==> EventOf(s, t, m).value.t == t
    ensures |Do(s, t, m).pcs| == |s.pcs| && forall u :: 0 <= u < |s.pcs| && u != t ==> Do(s, t, m).pcs[u] == s.pcs[u]
    ensures Do(s, t, m).val != s.val ==> m.DoStore?
  {
  }

  lemma StepVariable<V>(s: State<V>, t: nat, m: Move<V>)
    requires Can(s, t, m)
    ensures var s' := Do(s, t, m);
      match EventOf(s, t, m)
      case None => s'.val == s.val && s'.cbs == s.cbs && s'.last >= s.last
      case Some(e) =>
        s'.val == (if e.Stored? then e.v else s.val) && s'.cbs == Edited(s.cbs, e) && s'.last == (if e.Added? then e.id else s.last)
  {
    hide Without;
  }

  // What another thread's step does to what thread u has done, and to the value it met.
  lemma OthersHistory<V>(s: State<V>, t: nat, m: Move<V>, u: nat)
    requires Can(s, t, m) && u != t
    ensures var s' := Do(s, t, m);
      Before(s'.history, u) == Before(s.history, u) && Asked(s'.history, u) == Asked(s.history, u) &&
      ToldSince(s'.history, u) == ToldSince(s.history, u) &&
      (StoredSince(s.history, u) || s'.val != s.val ==> StoredSince(s'.history, u))
  {
    StepHistory(s, t, m);
    if EventOf(s, t, m).Some? {
      HistorySnoc(s.history, EventOf(s, t, m).value, u);
    }
    hide Do, Can, Before, Asked, ToldSince, StoredSince;
  }

  // A reader keeps writers out, so neither the value nor the listeners change under it.
  lemma ReadersSeeNoChange<V>(s: State<V>, t: nat, m: Move<V>, u: nat)
    requires Exclusion(s) && Can(s, t, m) && u < |s.pcs| && u != t && Reads(s.pcs[u])
    ensures Do(s, t, m).val == s.val && Do(s, t, m).cbs == s.cbs
  {
    assert Writes(s.pcs[t]) ==> Free(s, t, true);
  }

  // What ThreadOk says of thread u outlives any step that leaves u's own place and doings alone.
  lemma PlaceKeeps<V>(o: Origin<V>, s: State<V>, s': State<V>, u: nat)
    requires u < |s.pcs| == |s'.pcs| && s'.pcs[u] == s.pcs[u] && ThreadOk(o, s, u)
    requires Before(s'.history, u) == Before(s.history, u) && Asked(s'.history, u) == Asked(s.history, u)
    requires ToldSince(s'.history, u) == ToldSince(s.history, u)
    requires StoredSince(s.history, u) || s'.val != s.val ==> StoredSince(s'.history, u)
    requires Reads(s.pcs[u]) ==> s'.val == s.val && s'.cbs == s.cbs
    ensures ThreadOk(o, s', u)
  {
    hide Before, Asked, ToldSince, StoredSince, Calls, CbsAt, ValueAt, InOrder;
  }

  lemma OthersKeep<V>(o: Origin<V>, s: State<V>, t: nat, m: Move<V>, u: nat)
    requires Inv(o, s) && Can(s, t, m) && u < |s.pcs| && u != t
    ensures u < |Do(s, t, m).pcs| && ThreadOk(o, Do(s, t, m), u)
  {
    assert ThreadOk(o, s, u) && Exclusion(s);
    hide Inv, ThreadOk, Exclusion, Before, Asked, ToldSince, StoredSince;
    StepHistory(s, t, m);
    OthersHistory(s, t, m, u);
    if Reads(s.pcs[u]) {
      ReadersSeeNoChange(s, t, m, u);
    }
    hide Do, Can, EventOf;
    PlaceKeeps(o, s, Do(s, t, m), u);
  }

  lemma {:induction false} CallsSnoc<V>(cbs: seq<nat>, k: nat, before: V, v: V)
    requires k < |cbs|
    ensures Calls(cbs[..k + 1], before, v) == Calls(cbs[..k], before, v) + [(cbs[k], before, v)]
  {
  }

  lemma WholeCalls<V>(cbs: seq<nat>, k: nat, before: V, v: V)
    requires k == |cbs|
    ensures Calls(cbs[..k], before, v) == Calls(cbs, before, v)
  {
    assert cbs[..k] == cbs;
  }

  lemma SelfBegins<V>(o: Origin<V>, s: State<V>, t: nat, v: V)
    requires Inv(o, s) && Can(s, t, BeginSet(v))
    ensures t < |Do(s, t, BeginSet(v)).pcs| && ThreadOk(o, Do(s, t, BeginSet(v)), t)
  {
    assert ThreadOk(o, s, t);
    var s' := Do(s, t, BeginSet(v));
    HistorySnoc(s.history, Began(t, v), t);
    assert s'.pcs[t] == Compare(v) && s'.history == s.history + [Began(t, v)] && s'.val == s.val && s'.cbs == s.cbs;
    assert s.val == ValueAt(o, s.history) && s.cbs == CbsAt(o, s.history);
    hide Do, Can, Inv, Follows, Before, Asked, ToldSince, StoredSince, ValueAt, CbsAt, LastAt, Calls, Edited, Without, InOrder;
  }

  lemma InvThread<V>(o: Origin<V>, s: State<V>, t: nat, m: Move<V>)
    requires Inv(o, s) && Can(s, t, m)
    ensures t < |s.pcs| && ThreadOk(o, s, t)
  {
    hide ThreadOk;
  }

  lemma SelfChecks<V>(o: Origin<V>, s: State<V>, t: nat)
    requires Inv(o, s) && Can(s, t, Check)
    ensures t < |Do(s, t, Check).pcs| && ThreadOk(o, Do(s, t, Check), t)
  {
    hide Inv, Follows, Before, Asked, ToldSince, StoredSince, ValueAt, CbsAt, LastAt, Edited, Without, InOrder;
    InvThread(o, s, t, Check);
    var s' := Do(s, t, Check);
    var v := s.pcs[t].v;
    HistorySnoc(s.history, Skipped(t, v), t);
    assert s'.val == s.val && s'.cbs == s.cbs;
    assert s.val == v ==> s'.pcs[t] == Idle && s'.history == s.history + [Skipped(t, v)];
    assert s.val != v ==> s'.pcs[t] == Notify(v, 0) && s'.history == s.history;
    assert s.cbs[..0] == [] && Calls([], s.val, v) == [];
    hide Do, Can, Calls;
  }

  lemma CallMoves<V>(s: State<V>, t: nat)
    requires Can(s, t, Call)
    ensures var pc, s' := s.pcs[t], Do(s, t, Call);
      pc.Notify? && pc.k < |s.cbs| && t < |s'.pcs| && s'.pcs[t] == InCall(pc.v, pc.k, s.cbs[pc.k]) &&
      s'.history == s.history + [Told(t, s.cbs[pc.k], s.val, pc.v)] && s'.val == s.val && s'.cbs == s.cbs
  {
  }

  lemma SelfCalls<V>(o: Origin<V>, s: State<V>, t: nat)
    requires Inv(o, s) && Can(s, t, Call)
    ensures t < |Do(s, t, Call).pcs| && ThreadOk(o, Do(s, t, Call), t)
  {
    hide Do, Can, Inv, Follows, Before, Asked, ToldSince, StoredSince, ValueAt, CbsAt, LastAt, Calls, Edited, Without, InOrder;
    InvThread(o, s, t, Call);
    CallMoves(s, t);
    var v, k := s.pcs[t].v, s.pcs[t].k;
    HistorySnoc(s.history, Told(t, s.cbs[k], s.val, v), t);
    CallsSnoc(s.cbs, k, s.val, v);
  }

  lemma ReturnMoves<V>(s: State<V>, t: nat)
    requires Can(s, t, Return)
    ensures var pc, s' := s.pcs[t], Do(s, t, Return);
      pc.InCall? && t < |s'.pcs| && s'.pcs[t] == Notify(pc.v, pc.k + 1) &&
      s'.history == s.history + [Returned(t, pc.id)] && s'.val == s.val && s'.cbs == s.cbs
  {
  }

  lemma SelfReturns<V>(o: Origin<V>, s: State<V>, t: nat)
    requires Inv(o, s) && Can(s, t, Return)
    ensures t < |Do(s, t, Return).pcs| && ThreadOk(o, Do(s, t, Return), t)
  {
    hide Do, Can, Inv, Follows, Before, Asked, ToldSince, StoredSince, ValueAt, CbsAt, LastAt, Calls, Edited, Without, InOrder;
    InvThread(o, s, t, Return);
    ReturnMoves(s, t);
    HistorySnoc(s.history, Returned(t, s.pcs[t].id), t);
  }

  lemma SelfLeaves<V>(o: Origin<V>, s: State<V>, t: nat)
    requires Inv(o, s) && Can(s, t, EndRead)
    ensures t < |Do(s, t, EndRead).pcs| && ThreadOk(o, Do(s, t, EndRead), t)
  {
    assert ThreadOk(o, s, t);
    var s' := Do(s, t, EndRead);
    var v, k := s.pcs[t].v, s.pcs[t].k;
    WholeCalls(s.cbs, k, s.val, v);
    assert s'.pcs[t] == Gap(v) && s'.history == s.history && s'.val == s.val && s'.cbs == s.cbs;
    assert InOrder(s.cbs);
    hide Do, Can, Inv, Follows, Before, Asked, ToldSince, StoredSince, ValueAt, CbsAt, LastAt, Calls, Edited, Without, InOrder;
  }

  lemma SelfStores<V>(o: Origin<V>, s: State<V>, t: nat)
    requires Inv(o, s) && Can(s, t, DoStore)
    ensures t < |Do(s, t, DoStore).pcs| && ThreadOk(o, Do(s, t, DoStore), t)
  {
    hide Inv, Follows, Before, Asked, ToldSince, StoredSince, ValueAt, CbsAt, LastAt, Edited, Without, InOrder;
    InvThread(o, s, t, DoStore);
    var s' := Do(s, t, DoStore);
    var v := s.pcs[t].v;
    HistorySnoc(s.history, Stored(t, v), t);
    assert s'.pcs[t] == Idle && s'.history == s.history + [Stored(t, v)];
    hide Do, Can;
  }

  lemma EditStep<V>(s: State<V>, t: nat)
    requires Can(s, t, DoEdit)
    ensures var s' := Do(s, t, DoEdit);
      |s'.pcs| == |s.pcs| && s'.pcs[t] == Idle && |s'.history| == |s.history| + 1 &&
      var e := s'.history[|s.history|];
      s'.history == s.history + [e] && (e.Added? || e.Removed? || e.Cleared?)
  {
    hide Without, Free;
  }

  lemma AskedNothing<V>(o: Origin<V>, s: State<V>, t: nat)
    requires t < |s.pcs| && (s.pcs[t].Idle? || s.pcs[t].Editing?)
    ensures ThreadOk(o, s, t) <==> Asked(s.history, t) == None
  {
  }

  lemma SelfEdits<V>(o: Origin<V>, s: State<V>, t: nat)
    requires Inv(o, s) && Can(s, t, DoEdit)
    ensures t < |Do(s, t, DoEdit).pcs| && ThreadOk(o, Do(s, t, DoEdit), t)
  {
    assert ThreadOk(o, s, t) && s.pcs[t].Editing?;
    EditStep(s, t);
    hide Do, Can, Inv, ThreadOk, Before, Asked, ToldSince, StoredSince;
    AskedNothing(o, s, t);
    HistorySnoc(s.history, Do(s, t, DoEdit).history[|s.history|], t);
    AskedNothing(o, Do(s, t, DoEdit), t);
  }

  lemma SelfLocks<V>(o: Origin<V>, s: State<V>, t: nat, m: Move<V>)
    requires Inv(o, s) && Can(s, t, m) && (m.LockWrite? || m.BeginEdit? || m.AddElsewhere?)
    ensures t < |Do(s, t, m).pcs| && ThreadOk(o, Do(s, t, m), t)
  {
    assert ThreadOk(o, s, t);
    var s' := Do(s, t, m);
    assert s'.history == s.history && s'.val == s.val && s'.cbs == s.cbs;
    assert s'.pcs[t] == if m.LockWrite? then Store(s.pcs[t].v) else if m.BeginEdit? then Editing(m.e) else Idle;
    hide Do, Can, Inv, Follows, Before, Asked, ToldSince, StoredSince, ValueAt, CbsAt, LastAt, Calls, Edited, Without, InOrder;
  }

  lemma SelfKeeps<V>(o: Origin<V>, s: State<V>, t: nat, m: Move<V>)
    requires Inv(o, s) && Can(s, t, m)
    ensures t < |Do(s, t, m).pcs| && ThreadOk(o, Do(s, t, m), t)
  {
    assert ThreadOk(o, s, t);
    match m
    case BeginSet(v) => SelfBegins(o, s, t, v);
    case Check => SelfChecks(o, s, t);
    case Call => SelfCalls(o, s, t);
    case Return => SelfReturns(o, s, t);
    case EndRead => SelfLeaves(o, s, t);
    case DoStore => SelfStores(o, s, t);
    case DoEdit => SelfEdits(o, s, t);
    case _ => SelfLocks(o, s, t, m);
  }

  lemma EventFair<V>(o: Origin<V>, s: State<V>, t: nat, m: Move<V>)
    requires Inv(o, s) && Can(s, t, m) && EventOf(s, t, m).Some?
    ensures Fair(o, s.history, EventOf(s, t, m).value)
  {
    assert ThreadOk(o, s, t);
    hide AllFair, Before, Asked, ToldSince, StoredSince, ValueAt, CbsAt, Calls, LastAt, Exclusion;
  }

  lemma FollowsStep<V>(o: Origin<V>, s: State<V>, t: nat, m: Move<V>)
    requires Inv(o, s) && Can(s, t, m)
    ensures AllFair(o, Do(s, t, m).history) && Follows(o, Do(s, t, m))
  {
    StepHistory(s, t, m);
    StepVariable(s, t, m);
    if EventOf(s, t, m).Some? {
      EventFair(o, s, t, m);
      AllFairSnoc(o, s.history, EventOf(s, t, m).value);
      VariableSnoc(o, s.history, EventOf(s, t, m).value);
    }
    hide AllFair, Fair, ValueAt, CbsAt, LastAt, ThreadOk, Exclusion, Ordered, Do, Can, EventOf, Edited;
  }

  // While one thread writes, no other can move in this variable.
  lemma WriterAlone<V>(s: State<V>, t: nat, m: Move<V>, u: nat)
    requires Exclusion(s) && Can(s, t, m) && !m.AddElsewhere? && u < |s.pcs| && Writes(s.pcs[u])
    ensures u == t
  {
    assert Free(s, u, true);
  }

  lemma ExclusionKeeps<V>(o: Origin<V>, s: State<V>, t: nat, m: Move<V>)
    requires Inv(o, s) && Can(s, t, m)
    ensures Exclusion(Do(s, t, m))
    ensures Ordered(Do(s, t, m).cbs, Do(s, t, m).last)
  {
    hide AllFair, ThreadOk, Follows;
    var s' := Do(s, t, m);
    forall u | 0 <= u < |s'.pcs| && Writes(s'.pcs[u]) ensures Free(s', u, true) {
      if m.AddElsewhere? {
        assert Free(s, u, true);
      } else if u != t {
        WriterAlone(s, t, m, u);
        assert false;
      }
    }
    if m.DoEdit? && s.pcs[t].e.Del? {
      WithoutKeeps(s.cbs, s.pcs[t].e.id, s.last);
    }
  }

  lemma StepKeeps<V>(o: Origin<V>, s: State<V>, t: nat, m: Move<V>)
    requires Inv(o, s) && Can(s, t, m)
    ensures Inv(o, Do(s, t, m))
  {
    FollowsStep(o, s, t, m);
    ExclusionKeeps(o, s, t, m);
    var s' := Do(s, t, m);
    hide Can, Fair, AllFair, ThreadOk;
    forall u | 0 <= u < |s'.pcs| ensures ThreadOk(o, s', u) {
      if u == t {
        SelfKeeps(o, s, t, m);
      } else {
        StepHistory(s, t, m);
        OthersKeep(o, s, t, m, u);
      }
    }
  }

  // ---------------------------------------------------------------- runs

  predicate CanRun<V(==)>(s: State<V>, run: seq<(nat, Move<V>)>)
    decreases run
  {
    run == [] || (Can(s, run[0].0, run[0].1) && CanRun(Do(s, run[0].0, run[0].1), run[1..]))
  }

  function After<V(==)>(s: State<V>, run: seq<(nat, Move<V>)>): State<V>
    requires CanRun(s, run)
    decreases run
  {
    if run == [] then s else After(Do(s, run[0].0, run[0].1), run[1..])
  }

  function Start<V>(o: Origin<V>, threads: nat): State<V> {
    State(o.val, o.cbs, o.last, seq(threads, t => Idle), [])
  }

  lemma {:induction false} RunKeeps<V>(o: Origin<V>, s: State<V>, run: seq<(nat, Move<V>)>)
    requires Inv(o, s) && CanRun(s, run)
    ensures Inv(o, After(s, run))
    decreases run
  {
    if run != [] {
      StepKeeps(o, s, run[0].0, run[0].1);
      hide Inv, Can, Do;
      RunKeeps(o, Do(s, run[0].0, run[0].1), run[1..]);
    }
  }

  lemma StartOk<V>(o: Origin<V>, threads: nat)
    requires Ordered(o.cbs, o.last)
    ensures Inv(o, Start(o, threads))
  {
  }

  /** Over every interleaving of any number of threads every event is Fair, and the value
      and the listeners are what the events made of them.  A value under a listener's eyes
      does not change during the call, and no call is open for an idle thread. */
  lemma ConcurrentSetValueIsFair<V>(o: Origin<V>, threads: nat, run: seq<(nat, Move<V>)>)
    requires Ordered(o.cbs, o.last) && CanRun(Start(o, threads), run)
    ensures var end := After(Start(o, threads), run);
      AllFair(o, end.history) && end.val == ValueAt(o, end.history) && end.cbs == CbsAt(o, end.history) &&
      forall t :: 0 <= t < |end.pcs| ==>
        (end.pcs[t].Idle? ==> Asked(end.history, t) == None) &&
        (end.pcs[t].InCall? ==> end.val == MetValue(o, end.history, t) != end.pcs[t].v)
  {
    StartOk(o, threads);
    RunKeeps(o, Start(o, threads), run);
    var end := After(Start(o, threads), run);
    forall t | 0 <= t < |end.pcs|
      ensures end.pcs[t].Idle? ==> Asked(end.history, t) == None
      ensures end.pcs[t].InCall? ==> end.val == MetValue(o, end.history, t) != end.pcs[t].v
    {
      assert ThreadOk(o, end, t);
    }
  }

  // While a call or an edit is under way, one of them can go on.
  lemma SomeGoesOn<V>(s: State<V>) returns (t: nat, m: Move<V>)
    requires exists u :: 0 <= u < |s.pcs| && !s.pcs[u].Idle?
    ensures Can(s, t, m) && !s.pcs[t].Idle?
  {
    if u :| 0 <= u < |s.pcs| && Writes(s.pcs[u]) {
      t, m := u, if s.pcs[u].Store? then DoStore else DoEdit;
    } else if u :| 0 <= u < |s.pcs| && Reads(s.pcs[u]) {
      t, m := u, if s.pcs[u].Compare? then Check else if s.pcs[u].InCall? then Return else if s.pcs[u].k < |s.cbs| then Call else EndRead;
    } else {
      t :| t < |s.pcs| && !s.pcs[t].Idle?;
      m := LockWrite;
    }
  }

  /** No interleaving gets stuck: while a call or an edit is under way, one of them can go
      on, and when none is, every thread can begin any call and any edit. */
  lemma RunsGoOn<V>(o: Origin<V>, threads: nat, run: seq<(nat, Move<V>)>, t: nat, v: V, e: Edit)
    requires Ordered(o.cbs, o.last) && CanRun(Start(o, threads), run) && t < threads
    ensures var end := After(Start(o, threads), run);
      |end.pcs| == threads &&
      if exists u :: 0 <= u < |end.pcs| && !end.pcs[u].Idle? then exists u: nat, m :: Can(end, u, m) && !end.pcs[u].Idle?
      else Can(end, t, BeginSet(v)) && Can(end, t, BeginEdit(e)) && Can(end, t, Move.AddElsewhere)
  {
    SameThreads(Start(o, threads), run);
    var end := After(Start(o, threads), run);
    if exists u :: 0 <= u < |end.pcs| && !end.pcs[u].Idle? {
      var u, m := SomeGoesOn(end);
    }
  }

  lemma {:induction false} SameThreads<V>(s: State<V>, run: seq<(nat, Move<V>)>)
    requires CanRun(s, run)
    ensures |After(s, run).pcs| == |s.pcs|
    decreases run
  {
    if run != [] {
      hide Can;
      SameThreads(Do(s, run[0].0, run[0].1), run[1..]);
    }
  }

  // Listeners added so far, here and, among the moves of a run, at other variables.
  function AddedIn<V>(h: seq<Event<V>>): nat {
    if h == [] then 0 else AddedIn(h[..|h| - 1]) + if h[|h| - 1].Added? then 1 else 0
  }

  function AddedElsewhere<V>(run: seq<(nat, Move<V>)>): nat {
    if run == [] then 0 else (if run[0].1.AddElsewhere? then 1 else 0) + AddedElsewhere(run[1..])
  }

  lemma AddedSnoc<V>(h: seq<Event<V>>, e: Event<V>)
    ensures AddedIn(h + [e]) == AddedIn(h) + if e.Added? then 1 else 0
  {
    assert (h + [e])[..|h|] == h;
  }

  /** Every listener added takes one id of the shared counter, at this variable or another. */
  lemma {:induction false} IdsTaken<V>(s: State<V>, run: seq<(nat, Move<V>)>)
    requires CanRun(s, run)
    ensures After(s, run).last + AddedIn(s.history) == s.last + AddedIn(After(s, run).history) + AddedElsewhere(run)
    decreases run
  {
    hide Can, Do, AddedIn;
    if run != [] {
      IdTaken(s, run[0].0, run[0].1);
      IdsTaken(Do(s, run[0].0, run[0].1), run[1..]);
    }
  }

  lemma IdTaken<V>(s: State<V>, t: nat, m: Move<V>)
    requires Can(s, t, m)
    ensures Do(s, t, m).last + AddedIn(s.history) == s.last + AddedIn(Do(s, t, m).history) + if m.AddElsewhere? then 1 else 0
  {
    hide AddedIn, Free, Without;
    StepHistory(s, t, m);
    var e := EventOf(s, t, m);
    if e.Some? {
      AddedSnoc(s.history, e.value);
    }
  }

  // ---------------------------------------------------------------- overlapping calls

  lemma RunOne<V>(s: State<V>, t: nat, m: Move<V>, run: seq<(nat, Move<V>)>)
    requires Can(s, t, m) && CanRun(Do(s, t, m), run)
    ensures CanRun(s, [(t, m)] + run) && After(s, [(t, m)] + run) == After(Do(s, t, m), run)
  {
    assert ([(t, m)] + run)[1..] == run;
  }

  // A state of two threads and one listener, for the run below.
  function Two<V>(id: nat, val: V, p: Pc<V>, q: Pc<V>, h: seq<Event<V>>): State<V> {
    State(val, [id], id, [p, q], h)
  }

  // The moves of two setValue calls of which the first to begin is the last to store.
  function Overlap<V>(v: V, w: V): seq<(nat, Move<V>)> {
    [(0, BeginSet(v)), (1, BeginSet(w)), (0, Check), (1, Check), (0, Call), (0, Return), (1, Call), (1, Return),
     (0, EndRead), (1, EndRead), (1, LockWrite), (1, DoStore), (0, LockWrite), (0, DoStore)]
  }

  lemma OverlapReads<V>(id: nat, val: V, v: V, w: V, run: seq<(nat, Move<V>)>)
    requires v != val && w != val
    requires CanRun(Two(id, val, Notify(v, 0), Notify(w, 0), [Began(0, v), Began(1, w)]), run)
    ensures var s := Two(id, val, Idle, Idle, []);
      var moves := [(0, BeginSet(v))] + ([(1, BeginSet(w))] + ([(0, Check)] + ([(1, Check)] + run)));
      CanRun(s, moves) && After(s, moves) == After(Two(id, val, Notify(v, 0), Notify(w, 0), [Began(0, v), Began(1, w)]), run)
  {
    var h := [Began(0, v), Began(1, w)];
    assert [Began(0, v)] + [Began(1, w)] == h && [] + [Began(0, v)] == [Began(0, v)];
    var s0, s1 := Two(id, val, Idle, Idle, []), Two(id, val, Compare(v), Idle, [Began(0, v)]);
    var s2, s3 := Two(id, val, Compare(v), Compare(w), h), Two(id, val, Notify(v, 0), Compare(w), h);
    assert s0.pcs[0 := Compare(v)] == s1.pcs && s1.pcs[1 := Compare(w)] == s2.pcs;
    assert s2.pcs[0 := Notify(v, 0)] == s3.pcs && s3.pcs[1 := Notify(w, 0)] == [Notify(v, 0), Notify(w, 0)];
    RunOne(s3, 1, Check, run);
    RunOne(s2, 0, Check, [(1, Check)] + run);
    RunOne(s1, 1, BeginSet(w), [(0, Check)] + ([(1, Check)] + run));
    RunOne(s0, 0, BeginSet(v), [(1, BeginSet(w))] + ([(0, Check)] + ([(1, Check)] + run)));
  }

  lemma OverlapTells<V>(id: nat, val: V, v: V, w: V, h: seq<Event<V>>, run: seq<(nat, Move<V>)>)
    requires var g := h + [Told(0, id, val, v)] + [Returned(0, id)] + [Told(1, id, val, w)] + [Returned(1, id)];
      CanRun(Two(id, val, Notify(v, 1), Notify(w, 1), g), run)
    ensures var g := h + [Told(0, id, val, v)] + [Returned(0, id)] + [Told(1, id, val, w)] + [Returned(1, id)];
      var s := Two(id, val, Notify(v, 0), Notify(w, 0), h);
      var moves := [(0, Call)] + ([(0, Return)] + ([(1, Call)] + ([(1, Return)] + run)));
      CanRun(s, moves) && After(s, moves) == After(Two(id, val, Notify(v, 1), Notify(w, 1), g), run)
  {
    var g1 := h + [Told(0, id, val, v)];
    var g2 := g1 + [Returned(0, id)];
    var g3 := g2 + [Told(1, id, val, w)];
    var s0, s1 := Two(id, val, Notify(v, 0), Notify(w, 0), h), Two(id, val, InCall(v, 0, id), Notify(w, 0), g1);
    var s2, s3 := Two(id, val, Notify(v, 1), Notify(w, 0), g2), Two(id, val, Notify(v, 1), InCall(w, 0, id), g3);
    assert s0.pcs[0 := InCall(v, 0, id)] == s1.pcs && s1.pcs[0 := Notify(v, 1)] == s2.pcs;
    assert s2.pcs[1 := InCall(w, 0, id)] == s3.pcs && s3.pcs[1 := Notify(w, 1)] == [Notify(v, 1), Notify(w, 1)];
    RunOne(s3, 1, Return, run);
    RunOne(s2, 1, Call, [(1, Return)] + run);
    RunOne(s1, 0, Return, [(1, Call)] + ([(1, Return)] + run));
    RunOne(s0, 0, Call, [(0, Return)] + ([(1, Call)] + ([(1, Return)] + run)));
  }

  lemma OverlapStores<V>(id: nat, val: V, v: V, w: V, h: seq<Event<V>>)
    ensures var g := h + [Stored(1, w)] + [Stored(0, v)];
      var s := Two(id, val, Notify(v, 1), Notify(w, 1), h);
      var moves := [(0, EndRead)] + ([(1, EndRead)] + ([(1, LockWrite)] + ([(1, DoStore)] + ([(0, LockWrite)] + ([(0, DoStore)] + [])))));
      CanRun(s, moves) && After(s, moves) == Two(id, v, Idle, Idle, g)
  {
    var g1 := h + [Stored(1, w)];
    var s0, s1 := Two(id, val, Notify(v, 1), Notify(w, 1), h), Two(id, val, Gap(v), Notify(w, 1), h);
    var s2, s3 := Two(id, val, Gap(v), Gap(w), h), Two(id, val, Gap(v), Store(w), h);
    var s4, s5 := Two(id, w, Gap(v), Idle, g1), Two(id, w, Store(v), Idle, g1);
    assert s0.pcs[0 := Gap(v)] == s1.pcs && s1.pcs[1 := Gap(w)] == s2.pcs && s2.pcs[1 := Store(w)] == s3.pcs;
    assert s3.pcs[1 := Idle] == s4.pcs && s4.pcs[0 := Store(v)] == s5.pcs && s5.pcs[0 := Idle] == [Idle, Idle];
    RunOne(s5, 0, DoStore, []);
    RunOne(s4, 0, LockWrite, [(0, DoStore)] + []);
    RunOne(s3, 1, DoStore, [(0, LockWrite)] + ([(0, DoStore)] + []));
    RunOne(s2, 1, LockWrite, [(1, DoStore)] + ([(0, LockWrite)] + ([(0, DoStore)] + [])));
    RunOne(s1, 1, EndRead, [(1, LockWrite)] + ([(1, DoStore)] + ([(0, LockWrite)] + ([(0, DoStore)] + []))));
    RunOne(s0, 0, EndRead, [(1, EndRead)] + ([(1, LockWrite)] + ([(1, DoStore)] + ([(0, LockWrite)] + ([(0, DoStore)] + [])))));
  }

  /** setValue as a whole is not atomic.  From the start, with one listener registered, two
      overlapping calls tell it val becomes v and val becomes w, store w, and then store v
      in place of w: the last store replaces a value its call never announced. */
  lemma StaleAnnouncement<V>(id: nat, val: V, v: V, w: V)
    requires v != val && w != val
    ensures var o := Origin(val, [id], id);
      CanRun(Start(o, 2), Overlap(v, w)) &&
      var end := After(Start(o, 2), Overlap(v, w));
      end.history == [Began(0, v), Began(1, w), Told(0, id, val, v), Returned(0, id), Told(1, id, val, w), Returned(1, id),
                      Stored(1, w), Stored(0, v)] &&
      end.val == v && end.pcs == [Idle, Idle] && ValueAt(o, end.history[..7]) == w != MetValue(o, end.history[..7], 0)
  {
    var o := Origin(val, [id], id);
    var h := [Began(0, v), Began(1, w)];
    var g := h + [Told(0, id, val, v)] + [Returned(0, id)] + [Told(1, id, val, w)] + [Returned(1, id)];
    assert Start(o, 2) == Two(id, val, Idle, Idle, []);
    OverlapStores(id, val, v, w, g);
    OverlapTells(id, val, v, w, h, StoreMoves());
    OverlapReads(id, val, v, w, [(0, Call)] + ([(0, Return)] + ([(1, Call)] + ([(1, Return)] + StoreMoves()))));
    hide CanRun, After, Can, Do;
    OverlapMoves(v, w);
    var end := After(Start(o, 2), Overlap(v, w));
    assert end.history[..7] == h + [Told(0, id, val, v)] + [Returned(0, id)] + [Told(1, id, val, w)] + [Returned(1, id)] + [Stored(1, w)];
    OverlapMet(o, id, v, w);
  }

  function StoreMoves<V>(): seq<(nat, Move<V>)> {
    [(0, EndRead)] + ([(1, EndRead)] + ([(1, LockWrite)] + ([(1, DoStore)] + ([(0, LockWrite)] + ([(0, DoStore)] + [])))))
  }

  lemma OverlapMoves<V>(v: V, w: V)
    ensures [(0, BeginSet(v))] + ([(1, BeginSet(w))] + ([(0, Check)] + ([(1, Check)] +
      ([(0, Call)] + ([(0, Return)] + ([(1, Call)] + ([(1, Return)] + StoreMoves()))))))) == Overlap(v, w)
  {
  }

  lemma OverlapMet<V>(o: Origin<V>, id: nat, v: V, w: V)
    ensures var h := [Began(0, v), Began(1, w)] + [Told(0, id, o.val, v)] + [Returned(0, id)] + [Told(1, id, o.val, w)] +
      [Returned(1, id)] + [Stored(1, w)];
      ValueAt(o, h) == w && MetValue(o, h, 0) == o.val
  {
    var h0, h1: seq<Event<V>> := [Began(0, v)], [Began(0, v), Began(1, w)];
    assert h1 == h0 + [Began(1, w)] && [] + [Began(0, v)] == h0;
    var h2 := h1 + [Told(0, id, o.val, v)];
    var h3 := h2 + [Returned(0, id)];
    var h4 := h3 + [Told(1, id, o.val, w)];
    var h5 := h4 + [Returned(1, id)];
    VariableSnoc(o, h5, Stored(1, w));
    HistorySnoc(h5, Stored(1, w), 0);
    HistorySnoc(h4, Returned(1, id), 0);
    HistorySnoc(h3, Told(1, id, o.val, w), 0);
    HistorySnoc(h2, Returned(0, id), 0);
    HistorySnoc(h1, Told(0, id, o.val, v), 0);
    HistorySnoc(h0, Began(1, w), 0);
    HistorySnoc([], Began(0, v), 0);
  }
}
