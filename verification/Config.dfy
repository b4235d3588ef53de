/** Configuration variables with change listeners, and the registry that loads them from
    a YAML tree. */
module Config {
  import opened Basics
  import opened Yaml

  // Listener id was told that the value goes from before to after.
  datatype Notice<V> = Notice(id: nat, before: V, after: V)

  // The counter s_fun_id, one for all variables of a type.
  class IdSource {
    var last: nat

    constructor ()
      ensures last == 0
    {
      last := 0;
    }
  }

  // Everything a variable remembers: value, listener ids in map order, last id issued, calls made.
  datatype VarState<V> = VarState(val: V, cbs: seq<nat>, last: nat, notices: seq<Notice<V>>)

  datatype Op<V> =
    | SetValue(v: V)
    | AddListener
    | DelListener(id: nat)
    | ClearListener
    | AddElsewhere  // another variable of the same type registers a listener

  function Announce<V>(cbs: seq<nat>, before: V, after: V): (ns: seq<Notice<V>>)
    ensures |ns| == |cbs| && forall j :: 0 <= j < |ns| ==> ns[j] == Notice(cbs[j], before, after)
  {
    if cbs == [] then [] else [Notice(cbs[0], before, after)] + Announce(cbs[1..], before, after)
  }

  function Without(cbs: seq<nat>, id: nat): seq<nat> {
    if cbs == [] then [] else (if cbs[0] == id then [] else [cbs[0]]) + Without(cbs[1..], id)
  }

  function Step<V(==)>(st: VarState<V>, op: Op<V>): VarState<V> {
    match op
    case SetValue(v) =>
      if st.val == v then st else st.(val := v, notices := st.notices + Announce(st.cbs, st.val, v))
    case AddListener => st.(last := st.last + 1, cbs := st.cbs + [st.last + 1])
    case DelListener(id) => st.(cbs := Without(st.cbs, id))
    case ClearListener => st.(cbs := [])
    case AddElsewhere => st.(last := st.last + 1)
  }

  class ConfigVar<V(==)> {
    const name: string
    const tag: nat                    // the type T of the variable
    const fromStr: string -> Result<V>
    const ids: IdSource
    var val: V
    var cbs: seq<nat>
    var notices: seq<Notice<V>>       // the calls made to listeners so far; their bodies are not part of the class

    ghost function State(): VarState<V>
      reads this, ids
    {
      VarState(val, cbs, ids.last, notices)
    }

    constructor (name: string, tag: nat, val: V, fromStr: string -> Result<V>, ids: IdSource)
      ensures this.name == ToLower(name) && this.tag == tag && this.fromStr == fromStr && this.ids == ids
      ensures State() == VarState(val, [], ids.last, [])
    {
      this.name, this.tag, this.fromStr, this.ids := ToLower(name), tag, fromStr, ids;
      this.val, cbs, notices := val, [], [];
    }

    /** Tells every listener, in map order, and then stores; an equal value does neither. */
    method SetValue(v: V)
      modifies this
      ensures State() == Step(old(State()), Op.SetValue(v))
    {
      if val == v {
        return;
      }
      var j := 0;
      while j < |cbs|
        invariant 0 <= j <= |cbs| && val == old(val) && cbs == old(cbs)
        invariant notices == old(notices) + Announce(cbs, val, v)[..j]
      {
        notices := notices + [Notice(cbs[j], val, v)];
        j := j + 1;
      }
      val := v;
    }

    // The new id is above all ids in the map, so it goes last.
    method AddListener() returns (id: nat)
      modifies this`cbs, ids
      ensures State() == Step(old(State()), Op.AddListener) && id == ids.last
    {
      ids.last := ids.last + 1;
      cbs := cbs + [ids.last];
      id := ids.last;
    }

    method DelListener(id: nat)
      modifies this`cbs
      ensures State() == Step(old(State()), Op.DelListener(id))
    {
      var kept, j := [], 0;
      assert cbs[j..] == cbs;
      while j < |cbs|
        invariant 0 <= j <= |cbs| && kept + Without(cbs[j..], id) == Without(cbs, id)
      {
        assert cbs[j..][1..] == cbs[j + 1..];
        if cbs[j] != id {
          kept := kept + [cbs[j]];
        }
        j := j + 1;
      }
      cbs := kept;
    }

    method ClearListener()
      modifies this`cbs
      ensures State() == Step(old(State()), Op.ClearListener)
    {
      cbs := [];
    }

    /** A text that does not convert leaves the variable and its listeners alone. */
    method FromString(text: string) returns (ok: bool)
      modifies this
      ensures State() == Converted(old(State()), fromStr, text) && ok == fromStr(text).Ok?
    {
      match fromStr(text) {
        case Thrown => ok := false;
        case Ok(v) =>
          SetValue(v);
          ok := true;
      }
    }
  }

  function Converted<V(==)>(st: VarState<V>, fromStr: string -> Result<V>, text: string): VarState<V> {
    match fromStr(text)
    case Thrown => st
    case Ok(v) => Step(st, Op.SetValue(v))
  }

  // ---------------------------------------------------------------- runs of one variable

  function Run<V(==)>(st: VarState<V>, ops: seq<Op<V>>): VarState<V>
    decreases ops
  {
    if ops == [] then st else Run(Step(st, ops[0]), ops[1..])
  }

  // Ids are in ascending order, which is registration order, and were all issued.
  predicate Ordered(cbs: seq<nat>, last: nat) {
    (forall i, j :: 0 <= i < j < |cbs| ==> cbs[i] < cbs[j]) && forall j :: 0 <= j < |cbs| ==> cbs[j] <= last
  }

  lemma OrderedTail(cbs: seq<nat>, last: nat)
    requires cbs != [] && Ordered(cbs, last)
    ensures Ordered(cbs[1..], last) && forall x :: x in cbs[1..] ==> cbs[0] < x
  {
    assert forall j :: 0 <= j < |cbs[1..]| ==> cbs[1..][j] == cbs[j + 1];
  }

  lemma {:induction false} WithoutKeeps(cbs: seq<nat>, id: nat, last: nat)
    requires Ordered(cbs, last)
    ensures Ordered(Without(cbs, id), last)
    ensures forall x :: x in Without(cbs, id) <==> x in cbs && x != id
  {
    if cbs != [] {
      OrderedTail(cbs, last);
      WithoutKeeps(cbs[1..], id, last);
      assert cbs == [cbs[0]] + cbs[1..];
      var rest := Without(cbs[1..], id);
      forall j | 0 <= j < |rest| ensures cbs[0] < rest[j] <= last {
        assert rest[j] in rest && rest[j] in cbs[1..];
      }
    }
  }

  /** Over any mix of operations the ids stay in registration order, an id that is not
      registered never comes back, and only ids issued since can be new. */
  lemma {:induction false} IdsNeverReused<V>(st: VarState<V>, ops: seq<Op<V>>)
    requires Ordered(st.cbs, st.last)
    ensures Ordered(Run(st, ops).cbs, Run(st, ops).last)
    ensures forall id :: id in Run(st, ops).cbs ==> id in st.cbs || st.last < id
    decreases ops
  {
    if ops != [] {
      if ops[0].DelListener? {
        WithoutKeeps(st.cbs, ops[0].id, st.last);
      }
      IdsNeverReused(Step(st, ops[0]), ops[1..]);
    }
  }

  function Added<V>(ops: seq<Op<V>>): nat {
    if ops == [] then 0 else (if ops[0].AddListener? || ops[0].AddElsewhere? then 1 else 0) + Added(ops[1..])
  }

  // Every listener added takes one id of the shared counter, at this variable or another.
  lemma {:induction false} IdsTaken<V>(st: VarState<V>, ops: seq<Op<V>>)
    ensures Run(st, ops).last == st.last + Added(ops)
    decreases ops
  {
    if ops != [] {
      IdsTaken(Step(st, ops[0]), ops[1..]);
    }
  }

  // What listener id was told, in order.
  function Told<V>(ns: seq<Notice<V>>, id: nat): seq<(V, V)> {
    if ns == [] then [] else (if ns[0].id == id then [(ns[0].before, ns[0].after)] else []) + Told(ns[1..], id)
  }

  // The actual changes of value a run makes.
  function Changes<V(==)>(val: V, ops: seq<Op<V>>): seq<(V, V)>
    decreases ops
  {
    if ops == [] then []
    else if ops[0].SetValue? && ops[0].v != val then [(val, ops[0].v)] + Changes(ops[0].v, ops[1..])
    else Changes(val, ops[1..])
  }

  // Pairs that lead from one value to another, each step a change.
  predicate Chain<V(==)>(from: V, pairs: seq<(V, V)>, to: V)
    decreases pairs
  {
    if pairs == [] then from == to
    else pairs[0].0 == from && pairs[0].0 != pairs[0].1 && Chain(pairs[0].1, pairs[1..], to)
  }

  predicate Survives<V(==)>(id: nat, ops: seq<Op<V>>) {
    forall j :: 0 <= j < |ops| ==> ops[j] != Op.DelListener(id) && ops[j] != Op.ClearListener
  }

  lemma {:induction false} ToldConcat<V>(ns: seq<Notice<V>>, ms: seq<Notice<V>>, id: nat)
    ensures Told(ns + ms, id) == Told(ns, id) + Told(ms, id)
  {
    if ns == [] {
      assert ns + ms == ms;
    } else {
      assert (ns + ms)[1..] == ns[1..] + ms;
      ToldConcat(ns[1..], ms, id);
      Assoc(if ns[0].id == id then [(ns[0].before, ns[0].after)] else [], Told(ns[1..], id), Told(ms, id));
    }
  }

  lemma {:induction false} ToldOnce<V>(cbs: seq<nat>, last: nat, id: nat, before: V, after: V)
    requires Ordered(cbs, last)
    ensures Told(Announce(cbs, before, after), id) == if id in cbs then [(before, after)] else []
  {
    if cbs != [] {
      OrderedTail(cbs, last);
      ToldOnce(cbs[1..], last, id, before, after);
      assert cbs == [cbs[0]] + cbs[1..];
    }
  }

  lemma SurvivesStep<V>(st: VarState<V>, op: Op<V>, id: nat)
    requires Ordered(st.cbs, st.last) && id in st.cbs && op != Op.DelListener(id) && op != Op.ClearListener
    ensures Ordered(Step(st, op).cbs, Step(st, op).last) && id in Step(st, op).cbs
    ensures Told(Step(st, op).notices, id) == Told(st.notices, id) + Changes(st.val, [op])
    ensures Step(st, op).val == if op.SetValue? then op.v else st.val
  {
    assert [op][1..] == [];
    match op
    case SetValue(v) =>
      ToldConcat(st.notices, Announce(st.cbs, st.val, v), id);
      ToldOnce(st.cbs, st.last, id, st.val, v);
    case DelListener(x) => WithoutKeeps(st.cbs, x, st.last);
    case _ =>
  }

  /** Over any run a listener that stays registered is told exactly the actual changes,
      one call each, and they form a chain from the first value to the last. */
  lemma {:induction false} NotificationChain<V>(st: VarState<V>, ops: seq<Op<V>>, id: nat)
    requires Ordered(st.cbs, st.last) && id in st.cbs && Survives(id, ops)
    ensures Told(Run(st, ops).notices, id) == Told(st.notices, id) + Changes(st.val, ops)
    ensures Chain(st.val, Changes(st.val, ops), Run(st, ops).val)
    decreases ops
  {
    if ops != [] {
      SurvivesStep(st, ops[0], id);
      var next := Step(st, ops[0]);
      assert Survives(id, ops[1..]);
      NotificationChain(next, ops[1..], id);
      assert [ops[0]][1..] == [];
      assert Changes(st.val, ops) == Changes(st.val, [ops[0]]) + Changes(next.val, ops[1..]);
    }
  }

  // ---------------------------------------------------------------- who is told, and who no longer

  // The calls one operation makes.
  function Calls<V(==)>(st: VarState<V>, op: Op<V>): seq<Notice<V>> {
    var now := Step(st, op).notices;
    if |st.notices| <= |now| then now[|st.notices|..] else []
  }

  lemma AnnouncedTo<V(!new)>(cbs: seq<nat>, last: nat, before: V, after: V)
    requires Ordered(cbs, last)
    ensures var ns := Announce(cbs, before, after);
      (forall c :: c in ns <==> c.id in cbs && c == Notice(c.id, before, after)) &&
      forall i, j :: 0 <= i < j < |ns| ==> ns[i].id < ns[j].id
  {
    var ns := Announce(cbs, before, after);
    forall c ensures c in ns <==> c.id in cbs && c == Notice(c.id, before, after) {
      if c in ns {
        var j :| 0 <= j < |ns| && ns[j] == c;
        assert cbs[j] == c.id;
      }
      if c.id in cbs && c == Notice(c.id, before, after) {
        var j :| 0 <= j < |cbs| && cbs[j] == c.id;
        assert ns[j] == c;
      }
    }
  }

  lemma CallsStep<V>(st: VarState<V>, op: Op<V>)
    ensures Step(st, op).notices == st.notices + Calls(st, op)
    ensures Calls(st, op) == if op.SetValue? && op.v != st.val then Announce(st.cbs, st.val, op.v) else []
  {
    hide Announce, Without;
    assert st.notices[|st.notices|..] == [] && st.notices + [] == st.notices;
    if op.SetValue? && op.v != st.val {
      var ns := Announce(st.cbs, st.val, op.v);
      assert (st.notices + ns)[|st.notices|..] == ns;
    }
  }

  /** A changed value is announced to exactly the registered listeners, once each, in the
      order they were registered in; nothing else is announced, and no call is taken back. */
  lemma CallsAre<V(!new)>(st: VarState<V>, op: Op<V>)
    requires Ordered(st.cbs, st.last)
    ensures Step(st, op).notices == st.notices + Calls(st, op)
    ensures forall c :: c in Calls(st, op) <==> op.SetValue? && op.v != st.val && c.id in st.cbs && c == Notice(c.id, st.val, op.v)
    ensures forall i, j :: 0 <= i < j < |Calls(st, op)| ==> Calls(st, op)[i].id < Calls(st, op)[j].id
  {
    hide Step, Calls, Announce, Ordered;
    CallsStep(st, op);
    if op.SetValue? && op.v != st.val {
      AnnouncedTo(st.cbs, st.last, st.val, op.v);
    }
  }

  lemma {:induction false} UnregisteredHearNothing<V>(st: VarState<V>, ops: seq<Op<V>>, id: nat)
    requires Ordered(st.cbs, st.last) && id !in st.cbs && id <= st.last
    ensures Told(Run(st, ops).notices, id) == Told(st.notices, id)
    decreases ops
  {
    if ops != [] {
      var next := Step(st, ops[0]);
      IdsNeverReused(st, [ops[0]]);
      assert [ops[0]][1..] == [] && Run(st, [ops[0]]) == next;
      if ops[0].SetValue? {
        ToldConcat(st.notices, Announce(st.cbs, st.val, ops[0].v), id);
        ToldOnce(st.cbs, st.last, id, st.val, ops[0].v);
        assert Told(st.notices, id) + [] == Told(st.notices, id);
      }
      hide Step, Told, Ordered;
      UnregisteredHearNothing(next, ops[1..], id);
    }
  }

  /** A listener that was removed, alone or with all others, is never told anything again. */
  lemma RemovedHearNothing<V>(st: VarState<V>, op: Op<V>, ops: seq<Op<V>>, id: nat)
    requires Ordered(st.cbs, st.last) && id in st.cbs && (op == Op.DelListener(id) || op == ClearListener)
    ensures Told(Run(Step(st, op), ops).notices, id) == Told(st.notices, id)
  {
    IdsNeverReused(st, [op]);
    assert [op][1..] == [] && Run(st, [op]) == Step(st, op);
    WithoutKeeps(st.cbs, id, st.last);
    UnregisteredHearNothing(Step(st, op), ops, id);
  }

  /** A listener that is added gets an id of its own and is told every change from then on. */
  lemma AddedHearAll<V>(st: VarState<V>, ops: seq<Op<V>>)
    requires Ordered(st.cbs, st.last) && Survives(st.last + 1, ops)
    ensures var id := Step(st, AddListener).last;
      id > st.last && id !in st.cbs &&
      Told(Run(Step(st, AddListener), ops).notices, id) == Told(st.notices, id) + Changes(st.val, ops)
  {
    var next := Step(st, AddListener);
    IdsNeverReused(st, [AddListener]);
    assert [Op<V>.AddListener][1..] == [] && Run(st, [AddListener]) == next;
    assert next.cbs[|st.cbs|] == st.last + 1;
    NotificationChain(next, ops, st.last + 1);
  }
}
