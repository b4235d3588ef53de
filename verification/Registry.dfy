/** The registry of configuration variables, and loading a YAML tree into it. */
module Registry {
  import opened Basics
  import opened Yaml
  import opened Config
  import opened Routes

  // What Lookup with a default returns: the variable, a null pointer for another type, or invalid_argument.
  datatype LookupResult<V(==)> = Found(v: ConfigVar<V>) | WrongType | InvalidName

  function Label(node: Node, emit: Node -> string): string {
    if node.Scalar? then node.text else emit(node)
  }

  // The texts a listing holds for the variable called name; an empty path names nothing.
  function TextsFor(name: string, items: seq<(string, Node)>, emit: Node -> string): seq<string> {
    if items == [] then []
    else (if items[0].0 == name && name != "" then [Label(items[0].1, emit)] else []) + TextsFor(name, items[1..], emit)
  }

  // Setting a variable from several texts in turn.
  function FromTexts<V(==)>(st: VarState<V>, fromStr: string -> Result<V>, texts: seq<string>): VarState<V>
    decreases texts
  {
    if texts == [] then st else FromTexts(Converted(st, fromStr, texts[0]), fromStr, texts[1..])
  }

  // How each variable converts texts.
  ghost function Casting<V>(vars: map<string, ConfigVar<V>>): (casts: map<string, string -> Result<V>>)
    ensures casts.Keys == vars.Keys
  {
    map n | n in vars :: vars[n].fromStr
  }

  // Setting the variable called path, if there is one, from a text.
  ghost function NodeStates<V>(states: map<string, VarState<V>>, casts: map<string, string -> Result<V>>, path: string,
                               text: string): map<string, VarState<V>>
    requires states.Keys == casts.Keys
  {
    if path in states && path != "" then states[path := Converted(states[path], casts[path], text)] else states
  }

  // Every variable ends as if its own texts among the items, and they alone, had been set in order.
  ghost predicate Loaded<V>(states: map<string, VarState<V>>, casts: map<string, string -> Result<V>>, items: seq<(string, Node)>,
                            emit: Node -> string, end: map<string, VarState<V>>) {
    states.Keys == casts.Keys == end.Keys &&
    forall n :: n in states ==> end[n] == FromTexts(states[n], casts[n], TextsFor(n, items, emit))
  }

  lemma LoadedNone<V>(states: map<string, VarState<V>>, casts: map<string, string -> Result<V>>, items: seq<(string, Node)>,
                      emit: Node -> string)
    requires states.Keys == casts.Keys && items == []
    ensures Loaded(states, casts, items, emit, states)
  {
  }

  lemma {:induction false} TextsForSnoc(name: string, items: seq<(string, Node)>, item: (string, Node), emit: Node -> string)
    ensures TextsFor(name, items + [item], emit) ==
      TextsFor(name, items, emit) + if item.0 == name && name != "" then [Label(item.1, emit)] else []
  {
    hide Label;
    if items == [] {
      assert items + [item] == [item] && [item][1..] == [];
      assert TextsFor(name, [], emit) == [];
    } else {
      assert (items + [item])[1..] == items[1..] + [item];
      TextsForSnoc(name, items[1..], item, emit);
    }
  }

  lemma FromTextsOne<V>(st: VarState<V>, fromStr: string -> Result<V>, texts: seq<string>, text: string)
    ensures FromTexts(st, fromStr, texts + [text]) == Converted(FromTexts(st, fromStr, texts), fromStr, text)
    ensures texts + [] == texts
  {
    var all := texts + [text];
    assert all[..|all| - 1] == texts;
    FromTextsSnoc(st, fromStr, all);
  }

  lemma LoadedStep<V>(first: map<string, VarState<V>>, casts: map<string, string -> Result<V>>, items: seq<(string, Node)>, j: nat,
                      emit: Node -> string, states: map<string, VarState<V>>)
    requires j < |items| && Loaded(first, casts, items[..j], emit, states)
    ensures Loaded(first, casts, items[..j + 1], emit, NodeStates(states, casts, items[j].0, Label(items[j].1, emit)))
  {
    hide Label, TextsFor, FromTexts, Converted;
    assert items[..j + 1] == items[..j] + [items[j]];
    forall n | n in first
      ensures NodeStates(states, casts, items[j].0, Label(items[j].1, emit))[n] == FromTexts(first[n], casts[n], TextsFor(n, items[..j + 1], emit))
    {
      TextsForSnoc(n, items[..j], items[j], emit);
      FromTextsOne(first[n], casts[n], TextsFor(n, items[..j], emit), Label(items[j].1, emit));
    }
  }

  class VarRegistry<V(==)> {
    var vars: map<string, ConfigVar<V>>

    // Every variable is registered under its own name.
    ghost predicate Valid()
      reads this
    {
      forall n :: n in vars ==> vars[n].name == n && ValidPath(n)
    }

    // The state of every variable.
    ghost function States(): (states: map<string, VarState<V>>)
      reads this, vars.Values, set v | v in vars.Values :: v.ids
      ensures states.Keys == vars.Keys
    {
      map n | n in vars :: vars[n].State()
    }

    constructor ()
      ensures Valid() && vars == map[]
    {
      vars := map[];
    }

    /** The one registered variable that carries the name, if any does. */
    method LookupBase(name: string) returns (v: Option<ConfigVar<V>>)
      requires Valid()
      ensures match v
        case Some(w) => w in vars.Values && w.name == name && forall u :: u in vars.Values && u.name == name ==> u == w
        case None => forall u :: u in vars.Values ==> u.name != name
    {
      v := if name in vars then Some(vars[name]) else None;
    }

    /** Registers a variable.  A name registered with another type is refused; an invalid
        name throws; and a name already registered with the same type is not kept: a
        fresh variable with the default value and no listeners takes its place. */
    method Lookup(name: string, tag: nat, default: V, fromStr: string -> Result<V>, ids: IdSource) returns (r: LookupResult<V>)
      requires Valid()
      modifies this
      ensures Valid()
      ensures r == WrongType <==> name in old(vars) && old(vars)[name].tag != tag
      ensures r == InvalidName <==> name !in old(vars) && !ValidPath(name)
      ensures if r.Found? then
          fresh(r.v) && vars == old(vars)[name := r.v] && r.v.tag == tag && r.v.fromStr == fromStr && r.v.ids == ids &&
          r.v.State() == VarState(default, [], ids.last, [])
        else vars == old(vars)
    {
      if name in vars && vars[name].tag != tag {
        return WrongType;
      }
      if !ValidPath(name) {
        return InvalidName;
      }
      LowerValid(name);
      var v := new ConfigVar<V>(name, tag, default, fromStr, ids);
      vars := vars[name := v];
      r := Found(v);
    }

    /** Loads a tree: every variable ends as if its own texts alone had been set in order,
        whatever the other paths hold and whether they convert. */
    method LoadFromYaml(root: Node, emit: Node -> string)
      requires Valid()
      modifies vars.Values
      ensures Loaded(old(States()), Casting(vars), Yaml.Valid(Paths("", root)), emit, States())
    {
      hide Loaded, Flatten, VarRegistry.States, Casting;
      var listing := new Listing();
      ListAllMember("", root, listing);
      ListedPathsAreValid(root);
      assert [] + Flatten("", root) == Flatten("", root);
      LoadItems(listing.items, emit);
    }

    method LoadItems(items: seq<(string, Node)>, emit: Node -> string)
      requires Valid() && forall k :: 0 <= k < |items| ==> ValidPath(items[k].0)
      modifies vars.Values
      ensures Loaded(old(States()), Casting(vars), items, emit, States())
    {
      hide Loaded, NodeStates, VarRegistry.States, Casting, Label;
      var j := 0;
      LoadedNone(States(), Casting(vars), items[..j], emit);
      while j < |items|
        invariant 0 <= j <= |items|
        invariant Loaded(old(States()), Casting(vars), items[..j], emit, States())
      {
        ghost var states := States();
        LoadItem(items[j].0, items[j].1, emit);
        LoadedStep(old(States()), Casting(vars), items, j, emit, states);
        j := j + 1;
      }
      assert items[..j] == items;
    }

    method LoadItem(path: string, node: Node, emit: Node -> string)
      requires Valid() && ValidPath(path)
      modifies vars.Values
      ensures States() == NodeStates(old(States()), Casting(vars), path, Label(node, emit))
    {
      hide Converted, Label, ConfigVar.State;
      var key := path;
      if key == "" {
        return;
      }
      LowerValid(path);
      key := ToLower(key);
      var v := LookupBase(key);
      if v.Some? {
        var _ := v.value.FromString(Label(node, emit));
      }
    }
  }

  lemma ListedPathsAreValid(root: Node)
    ensures Flatten("", root) == Yaml.Valid(Paths("", root))
    ensures forall k :: 0 <= k < |Flatten("", root)| ==> ValidPath(Flatten("", root)[k].0)
  {
    FlattenIsFilter("", root);
    forall k | 0 <= k < |Flatten("", root)| ensures ValidPath(Flatten("", root)[k].0) {
      ValidIn(Paths("", root), k);
    }
  }

  // ---------------------------------------------------------------- what loading leaves

  // The last text that converts, converted; otherwise the value there was.
  function LastGood<V>(val: V, fromStr: string -> Result<V>, texts: seq<string>): V
    decreases texts
  {
    if texts == [] then val
    else match fromStr(texts[|texts| - 1])
      case Ok(v) => v
      case Thrown => LastGood(val, fromStr, texts[..|texts| - 1])
  }

  lemma {:induction false} FromTextsSnoc<V>(st: VarState<V>, fromStr: string -> Result<V>, texts: seq<string>)
    requires texts != []
    ensures FromTexts(st, fromStr, texts)
         == Converted(FromTexts(st, fromStr, texts[..|texts| - 1]), fromStr, texts[|texts| - 1])
    decreases texts
  {
    if |texts| > 1 {
      var init := texts[..|texts| - 1];
      assert init[1..] == texts[1..][..|texts| - 2];
      FromTextsSnoc(Converted(st, fromStr, texts[0]), fromStr, texts[1..]);
    }
  }

  /** After loading, a variable holds the last successfully converted value among its
      texts, or its old value when none converts, and its listeners are as before. */
  lemma {:induction false} LoadedValue<V>(st: VarState<V>, fromStr: string -> Result<V>, texts: seq<string>)
    ensures FromTexts(st, fromStr, texts).val == LastGood(st.val, fromStr, texts)
    ensures FromTexts(st, fromStr, texts).cbs == st.cbs && FromTexts(st, fromStr, texts).last == st.last
    decreases texts
  {
    if texts != [] {
      FromTextsSnoc(st, fromStr, texts);
      LoadedValue(st, fromStr, texts[..|texts| - 1]);
    }
  }

  predicate Hands(node: Node, emit: Node -> string, text: string) {
    match node
    case Scalar(own) => text == own
    case _ => text == emit(node)
  }

  /** The texts of a variable come from exactly the nodes found under its name: the text of
      a scalar as it stands, any other node as it is emitted. */
  lemma {:induction false} TextsForIs(name: string, items: seq<(string, Node)>, emit: Node -> string, text: string)
    ensures text in TextsFor(name, items, emit) <==>
      name != "" && exists k :: 0 <= k < |items| && items[k].0 == name && Hands(items[k].1, emit, text)
  {
    if items != [] {
      TextsForIs(name, items[1..], emit, text);
      assert forall k :: 0 < k < |items| ==> items[k] == items[1..][k - 1];
    }
  }

  /** In a tree of plain keys, loading hands a variable the nodes that the pieces of its name
      between the dots lead to, key by key, and nothing else. */
  lemma HandedIff(name: string, root: Node, emit: Node -> string, text: string)
    requires PlainTree(root) && ValidPath(name) && name != ""
    ensures text in TextsFor(name, Yaml.Valid(Paths("", root)), emit) <==>
      exists node :: Reached(root, KeysOf(name), node) && Hands(node, emit, text)
  {
    hide Reached, PlainTree, KeysOf, Hands, TextsFor, Flatten, Paths, Yaml.Valid;
    FlattenIsFilter("", root);
    var items := Flatten("", root);
    TextsForIs(name, items, emit, text);
    if k :| 0 <= k < |items| && items[k].0 == name && Hands(items[k].1, emit, text) {
      assert (name, items[k].1) in items;
      ListedByKeys(root, name, items[k].1);
    }
    if node :| Reached(root, KeysOf(name), node) && Hands(node, emit, text) {
      ListedByKeys(root, name, node);
      var k :| 0 <= k < |items| && items[k] == (name, node);
    }
  }

  lemma LowerValid(path: string)
    requires ValidPath(path)
    ensures ToLower(path) == path
  {
  }
}
