/** The container casts between values and strings, nested to any depth, over an abstract
    YAML reader and writer and abstract casts for the element type. */
module Casts {
  import opened Basics
  import opened Yaml
  import opened DefineCast

  // The C++ type a cast is instantiated for; the std::list casts are the std::vector ones.
  datatype Shape = Element | VectorOf(elem: Shape) | SetOf(elem: Shape) | MapOf(elem: Shape)

  // A value; sets and maps hold their elements in ascending order.
  datatype Value<A> = Leaf(a: A) | Elems(elems: seq<Value<A>>) | Dict(entries: seq<Binding<A>>)

  datatype Binding<A> = Binding(key: string, value: Value<A>)

  // YAML::Load and the emitter, the casts of the element type, and the order of std::set.
  datatype Env<!A> = Env(load: string -> Result<Node>, emit: Node -> string,
                         toStr: A -> string, fromStr: string -> Result<A>,
                         less: (Value<A>, Value<A>) -> bool)

  // ---------------------------------------------------------------- to string

  function ToStr<A>(v: Value<A>, env: Env<A>): Result<string>
    decreases v, 1
  {
    match v
    case Leaf(a) => Ok(env.toStr(a))
    case Elems(elems) =>
      (match LoadElems(elems, env)
       case Thrown => Thrown
       case Ok(ns) => Ok(env.emit(if ns == [] then Null else Sequence(ns))))  // no push_back leaves a null node
    case Dict(entries) =>
      match LoadEntries(entries, env)
      case Thrown => Thrown
      case Ok(es) => Ok(env.emit(Map(es)))
  }

  // YAML::Load(LexicalCast<T, std::string>()(v))
  function LoadOne<A>(v: Value<A>, env: Env<A>): Result<Node>
    decreases v, 2
  {
    match ToStr(v, env)
    case Thrown => Thrown
    case Ok(s) => env.load(s)
  }

  function LoadElems<A>(elems: seq<Value<A>>, env: Env<A>): Result<seq<Node>>
    decreases elems, 0
  {
    if elems == [] then Ok([])
    else match LoadOne(elems[0], env)
      case Thrown => Thrown
      case Ok(n) =>
        match LoadElems(elems[1..], env)
        case Thrown => Thrown
        case Ok(ns) => Ok([n] + ns)
  }

  function LoadEntries<A>(entries: seq<Binding<A>>, env: Env<A>): Result<seq<Entry>>
    decreases entries, 0
  {
    if entries == [] then Ok([])
    else match LoadOne(entries[0].value, env)
      case Thrown => Thrown
      case Ok(n) =>
        match LoadEntries(entries[1..], env)
        case Thrown => Thrown
        case Ok(es) => Ok([Yaml.Entry(entries[0].key, n)] + es)
  }

  // ---------------------------------------------------------------- from string

  // std::set::insert; an equivalent element is already enough.
  function InsertElem<A>(s: seq<Value<A>>, x: Value<A>, less: (Value<A>, Value<A>) -> bool): seq<Value<A>> {
    if s == [] || less(x, s[0]) then [x] + s
    else if less(s[0], x) then [s[0]] + InsertElem(s[1..], x, less)
    else s
  }

  // std::map::insert; a key that is there keeps its value.
  function InsertBinding<A>(s: seq<Binding<A>>, b: Binding<A>): seq<Binding<A>> {
    if s == [] || StringLess(b.key, s[0].key) then [b] + s
    else if s[0].key == b.key then s
    else [s[0]] + InsertBinding(s[1..], b)
  }

  function FromStr<A>(shape: Shape, text: string, env: Env<A>): Result<Value<A>>
    decreases shape, 1, 0
  {
    match shape
    case Element => (match env.fromStr(text) case Ok(a) => Ok(Leaf(a)) case Thrown => Thrown)
    case VectorOf(elem) => (match env.load(text) case Ok(n) => ReadElems(elem, n, 0, [], false, env) case Thrown => Thrown)
    case SetOf(elem) => (match env.load(text) case Ok(n) => ReadElems(elem, n, 0, [], true, env) case Thrown => Thrown)
    case MapOf(elem) =>
      match env.load(text)
      case Thrown => Thrown
      case Ok(Map(es)) => ReadEntries(elem, es, [], env)
      case Ok(Sequence(es)) => if es == [] then Ok(Dict([])) else Thrown  // its items have no key
      case Ok(_) => Ok(Dict([]))
  }

  // Each element is emitted and cast on its own, then appended or inserted.
  function ReadElems<A>(elem: Shape, node: Node, i: nat, done: seq<Value<A>>, isSet: bool, env: Env<A>): Result<Value<A>>
    requires i <= Size(node)
    decreases elem, 2, Size(node) - i
  {
    if i == Size(node) then Ok(Elems(done))
    else match FromStr(elem, env.emit(At(node, i)), env)
      case Thrown => Thrown
      case Ok(x) => ReadElems(elem, node, i + 1, if isSet then InsertElem(done, x, env.less) else done + [x], isSet, env)
  }

  function ReadEntries<A>(elem: Shape, es: seq<Entry>, done: seq<Binding<A>>, env: Env<A>): Result<Value<A>>
    decreases elem, 2, |es|
  {
    if es == [] then Ok(Dict(done))
    else match FromStr(elem, env.emit(es[0].value), env)
      case Thrown => Thrown
      case Ok(x) => ReadEntries(elem, es[1..], InsertBinding(done, Binding(es[0].key, x)), env)
  }

  // The loop of the vector, list and set casts.
  method CastElems<A>(elem: Shape, text: string, isSet: bool, env: Env<A>) returns (r: Result<Value<A>>)
    ensures r == FromStr(if isSet then SetOf(elem) else VectorOf(elem), text, env)
  {
    var loaded := env.load(text);
    if loaded.Thrown? {
      return Thrown;
    }
    var node := loaded.value;
    var vec: seq<Value<A>> := [];
    var i := 0;
    while i < Size(node)
      invariant 0 <= i <= Size(node)
      invariant ReadElems(elem, node, i, vec, isSet, env) == ReadElems(elem, node, 0, [], isSet, env)
    {
      var x := FromStr(elem, env.emit(At(node, i)), env);
      if x.Thrown? {
        return Thrown;
      }
      vec := if isSet then InsertElem(vec, x.value, env.less) else vec + [x.value];
      i := i + 1;
    }
    r := Ok(Elems(vec));
  }

  // ---------------------------------------------------------------- the round trip

  // The laws of the YAML library this rests on.
  ghost predicate Lawful<A>(env: Env<A>) {
    forall n :: env.load(env.emit(n)) == Ok(n)
  }

  // Cast, Load, Emit and cast back: what a value goes through inside a container.
  ghost predicate Survives<A>(shape: Shape, v: Value<A>, env: Env<A>) {
    var n := LoadOne(v, env);
    n.Ok? && FromStr(shape, env.emit(n.value), env) == Ok(v)
  }

  ghost predicate AscendingElems<A>(elems: seq<Value<A>>, less: (Value<A>, Value<A>) -> bool) {
    forall i, j :: 0 <= i < j < |elems| ==> less(elems[i], elems[j]) && !less(elems[j], elems[i])
  }

  ghost predicate AscendingKeys<A>(entries: seq<Binding<A>>) {
    forall i, j :: 0 <= i < j < |entries| ==> StringLess(entries[i].key, entries[j].key)
  }

  // v is a value of the C++ type, and the element type's values in it survive.
  ghost predicate Typed<A>(shape: Shape, v: Value<A>, env: Env<A>)
    decreases shape
  {
    match shape
    case Element => v.Leaf? && Survives(Element, v, env)
    case VectorOf(elem) => v.Elems? && forall x :: x in v.elems ==> Typed(elem, x, env)
    case SetOf(elem) => v.Elems? && AscendingElems(v.elems, env.less) && forall x :: x in v.elems ==> Typed(elem, x, env)
    case MapOf(elem) => v.Dict? && AscendingKeys(v.entries) && forall b :: b in v.entries ==> Typed(elem, b.value, env)
  }

  lemma {:induction false} LoadElemsIs<A>(elems: seq<Value<A>>, env: Env<A>)
    requires forall x :: x in elems ==> LoadOne(x, env).Ok?
    ensures var r := LoadElems(elems, env);
      r.Ok? && |r.value| == |elems| && forall j :: 0 <= j < |elems| ==> LoadOne(elems[j], env) == Ok(r.value[j])
  {
    hide LoadOne;
    if elems != [] {
      LoadElemsIs(elems[1..], env);
    }
  }

  lemma {:induction false} LoadEntriesIs<A>(entries: seq<Binding<A>>, env: Env<A>)
    requires forall b :: b in entries ==> LoadOne(b.value, env).Ok?
    ensures var r := LoadEntries(entries, env);
      r.Ok? && |r.value| == |entries| &&
      forall j :: 0 <= j < |entries| ==> r.value[j].key == entries[j].key && LoadOne(entries[j].value, env) == Ok(r.value[j].value)
  {
    hide LoadOne;
    if entries != [] {
      LoadEntriesIs(entries[1..], env);
    }
  }

  lemma {:induction false} InsertLast<A>(s: seq<Value<A>>, x: Value<A>, less: (Value<A>, Value<A>) -> bool)
    requires forall y :: y in s ==> less(y, x) && !less(x, y)
    ensures InsertElem(s, x, less) == s + [x]
  {
    if s != [] {
      InsertLast(s[1..], x, less);
    }
  }

  lemma {:induction false} InsertBindingLast<A>(s: seq<Binding<A>>, b: Binding<A>)
    requires forall c :: c in s ==> StringLess(c.key, b.key)
    ensures InsertBinding(s, b) == s + [b]
  {
    if s != [] {
      StringLessTotal(s[0].key, b.key);
      InsertBindingLast(s[1..], b);
    }
  }

  // Reading back a sequence node whose items stand for the elements from i on.
  lemma {:induction false} ReadElemsBack<A>(elem: Shape, node: Node, elems: seq<Value<A>>, i: nat, isSet: bool, env: Env<A>)
    requires i <= Size(node) == |elems| && (isSet ==> AscendingElems(elems, env.less))
    requires forall j :: 0 <= j < |elems| ==> FromStr(elem, env.emit(At(node, j)), env) == Ok(elems[j])
    ensures ReadElems(elem, node, i, elems[..i], isSet, env) == Ok(Elems(elems))
    decreases |elems| - i
  {
    hide FromStr, At;
    if i == |elems| {
      assert elems[..i] == elems;
    } else {
      if isSet {
        InsertLast(elems[..i], elems[i], env.less);
      }
      assert elems[..i] + [elems[i]] == elems[..i + 1];
      ReadElemsBack(elem, node, elems, i + 1, isSet, env);
    }
  }

  lemma {:induction false} ReadEntriesBack<A>(elem: Shape, es: seq<Entry>, entries: seq<Binding<A>>, i: nat, env: Env<A>)
    requires i <= |es| == |entries| && AscendingKeys(entries)
    requires forall j :: 0 <= j < |es| ==> es[j].key == entries[j].key && FromStr(elem, env.emit(es[j].value), env) == Ok(entries[j].value)
    ensures ReadEntries(elem, es[i..], entries[..i], env) == Ok(Dict(entries))
    decreases |es| - i
  {
    hide FromStr;
    if i == |es| {
      assert entries[..i] == entries;
    } else {
      InsertBindingLast(entries[..i], entries[i]);
      assert entries[..i] + [entries[i]] == entries[..i + 1];
      assert es[i..][1..] == es[i + 1..];
      ReadEntriesBack(elem, es, entries, i + 1, env);
    }
  }

  /** Every value of every nesting of containers survives being cast, loaded, emitted and
      cast back, given that the element type's values do. */
  lemma {:induction false} ContainersSurvive<A>(shape: Shape, v: Value<A>, env: Env<A>)
    requires Lawful(env) && Typed(shape, v, env)
    ensures Survives(shape, v, env)
    decreases shape
  {
    match shape
    case Element =>
    case VectorOf(elem) =>
      forall x | x in v.elems ensures Survives(elem, x, env) {
        ContainersSurvive(elem, x, env);
      }
      ElemsSurvive(elem, v, false, env);
    case SetOf(elem) =>
      forall x | x in v.elems ensures Survives(elem, x, env) {
        ContainersSurvive(elem, x, env);
      }
      ElemsSurvive(elem, v, true, env);
    case MapOf(elem) =>
      forall b | b in v.entries ensures Survives(elem, b.value, env) {
        ContainersSurvive(elem, b.value, env);
      }
      DictSurvives(elem, v, env);
  }

  lemma ElemsSurvive<A>(elem: Shape, v: Value<A>, isSet: bool, env: Env<A>)
    requires Lawful(env) && v.Elems? && (isSet ==> AscendingElems(v.elems, env.less))
    requires forall x :: x in v.elems ==> Survives(elem, x, env)
    ensures Survives(if isSet then SetOf(elem) else VectorOf(elem), v, env)
  {
    LoadElemsIs(v.elems, env);
    var ns := LoadElems(v.elems, env).value;
    var node := if ns == [] then Null else Sequence(ns);
    assert ToStr(v, env) == Ok(env.emit(node));
    assert LoadOne(v, env) == Ok(node);
    assert Size(node) == |v.elems|;
    forall j | 0 <= j < |v.elems| ensures FromStr(elem, env.emit(At(node, j)), env) == Ok(v.elems[j]) {
      assert Survives(elem, v.elems[j], env);
      assert At(node, j) == ns[j];
    }
    ReadElemsBack(elem, node, v.elems, 0, isSet, env);
  }

  lemma DictSurvives<A>(elem: Shape, v: Value<A>, env: Env<A>)
    requires Lawful(env) && v.Dict? && AscendingKeys(v.entries)
    requires forall b :: b in v.entries ==> Survives(elem, b.value, env)
    ensures Survives(MapOf(elem), v, env)
  {
    LoadEntriesIs(v.entries, env);
    var es := LoadEntries(v.entries, env).value;
    assert LoadOne(v, env) == Ok(Map(es));
    forall j | 0 <= j < |es| ensures FromStr(elem, env.emit(es[j].value), env) == Ok(v.entries[j].value) {
      assert Survives(elem, v.entries[j].value, env);
    }
    ReadEntriesBack(elem, es, v.entries, 0, env);
    assert es[0..] == es;
  }

  /** String conversion of containers round-trips: casting a container to a string and the
      string back gives the container again, nested to any depth. */
  lemma ContainerRoundTrip<A>(shape: Shape, v: Value<A>, env: Env<A>)
    requires Lawful(env) && Typed(shape, v, env) && shape != Element
    ensures ToStr(v, env).Ok? && FromStr(shape, ToStr(v, env).value, env) == Ok(v)
  {
    ContainersSurvive(shape, v, env);
    var n := LoadOne(v, env).value;
    EmitsItsNode(shape, v, env);
  }

  // A container's text is what its loaded node is written as.
  lemma EmitsItsNode<A>(shape: Shape, v: Value<A>, env: Env<A>)
    requires Lawful(env) && Typed(shape, v, env) && shape != Element && LoadOne(v, env).Ok?
    ensures ToStr(v, env) == Ok(env.emit(LoadOne(v, env).value))
  {
    hide LoadElems, LoadEntries;
    if v.Elems? {
      var ns := LoadElems(v.elems, env).value;
      assert env.load(env.emit(if ns == [] then Null else Sequence(ns))).Ok?;
    } else {
      var es := LoadEntries(v.entries, env).value;
      assert env.load(env.emit(Map(es))).Ok?;
    }
  }
}
