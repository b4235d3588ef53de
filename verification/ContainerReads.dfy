/** What the container casts read from any text, item by item. */
module ContainerReads {
  import opened Basics
  import opened Yaml
  import opened DefineCast
  import opened Casts

  // The items of the loaded node, cast one by one.
  ghost predicate CastsTo<A>(elem: Shape, node: Node, items: seq<Value<A>>, env: Env<A>) {
    |items| == Size(node) && forall j :: 0 <= j < |items| ==> FromStr(elem, env.emit(At(node, j)), env) == Ok(items[j])
  }

  // The first j items of a set, inserted one after the other.
  function InsertAll<A>(items: seq<Value<A>>, less: (Value<A>, Value<A>) -> bool): seq<Value<A>> {
    if items == [] then [] else InsertElem(InsertAll(items[..|items| - 1], less), items[|items| - 1], less)
  }

  lemma {:induction false} ItemsRead<A(!new)>(elem: Shape, node: Node, items: seq<Value<A>>, i: nat, isSet: bool, env: Env<A>)
    requires i <= Size(node) && CastsTo(elem, node, items, env)
    ensures ReadElems(elem, node, i, if isSet then InsertAll(items[..i], env.less) else items[..i], isSet, env)
         == Ok(Elems(if isSet then InsertAll(items, env.less) else items))
    decreases Size(node) - i
  {
    hide FromStr, At, InsertElem;
    if i == Size(node) {
      assert items[..i] == items;
    } else {
      ItemsRead(elem, node, items, i + 1, isSet, env);
      assert items[..i + 1][..i] == items[..i];
      assert items[..i] + [items[i]] == items[..i + 1];
    }
  }

  // An item that cannot be cast makes the whole cast throw, and nothing else does.
  lemma {:induction false} ItemsThrow<A(!new)>(elem: Shape, node: Node, i: nat, done: seq<Value<A>>, isSet: bool, env: Env<A>)
    requires i <= Size(node)
    ensures ReadElems(elem, node, i, done, isSet, env).Thrown? <==>
      exists j :: i <= j < Size(node) && FromStr(elem, env.emit(At(node, j)), env).Thrown?
    decreases Size(node) - i
  {
    hide FromStr, At, InsertElem;
    if i < Size(node) {
      var x := FromStr(elem, env.emit(At(node, i)), env);
      if x.Ok? {
        ItemsThrow(elem, node, i + 1, if isSet then InsertElem(done, x.value, env.less) else done + [x.value], isSet, env);
      }
    }
  }

  /** The sequence and set casts throw iff the text does not load or some item cannot be cast. */
  lemma ElemsThrowIff<A(!new)>(elem: Shape, text: string, isSet: bool, env: Env<A>)
    ensures var load := env.load(text);
      FromStr(if isSet then SetOf(elem) else VectorOf(elem), text, env).Thrown? <==>
        load.Thrown? || exists j :: 0 <= j < Size(load.value) && FromStr(elem, env.emit(At(load.value, j)), env).Thrown?
  {
    if env.load(text).Ok? {
      ItemsThrow(elem, env.load(text).value, 0, [], isSet, env);
    }
  }

  // A text of the element type goes to that type's own cast as it stands.
  lemma ElementIff<A>(text: string, v: Value<A>, env: Env<A>)
    ensures FromStr(Element, text, env) == Ok(v) <==> v.Leaf? && env.fromStr(text) == Ok(v.a)
    ensures v.Leaf? ==> ToStr(v, env) == Ok(env.toStr(v.a))
  {
  }

  /** The vector and list casts read exactly the items, in order. */
  lemma VectorIff<A(!new)>(elem: Shape, text: string, v: Value<A>, env: Env<A>)
    ensures FromStr(VectorOf(elem), text, env) == Ok(v) <==>
      v.Elems? && env.load(text).Ok? && CastsTo(elem, env.load(text).value, v.elems, env)
  {
    var load := env.load(text);
    if load.Ok? {
      if FromStr(VectorOf(elem), text, env) == Ok(v) {
        var items := AllCast(elem, text, false, env);
        ItemsRead(elem, load.value, items, 0, false, env);
      }
      if v.Elems? && CastsTo(elem, load.value, v.elems, env) {
        ItemsRead(elem, load.value, v.elems, 0, false, env);
      }
    }
  }

  lemma AllCast<A(!new)>(elem: Shape, text: string, isSet: bool, env: Env<A>) returns (items: seq<Value<A>>)
    requires FromStr(if isSet then SetOf(elem) else VectorOf(elem), text, env).Ok?
    ensures env.load(text).Ok? && CastsTo(elem, env.load(text).value, items, env)
  {
    ElemsThrowIff(elem, text, isSet, env);
    var node := env.load(text).value;
    items := seq(Size(node), j requires 0 <= j < Size(node) => FromStr(elem, env.emit(At(node, j)), env).value);
  }

  // ---------------------------------------------------------------- sets

  // What std::set asks of its order, on these values.
  ghost predicate StrictWeak<A>(s: seq<Value<A>>, less: (Value<A>, Value<A>) -> bool) {
    (forall x, y :: x in s && y in s ==> !(less(x, y) && less(y, x))) &&
    forall x, y, z :: x in s && y in s && z in s && less(x, z) ==> less(x, y) || less(y, z)
  }

  predicate Apart<A>(x: Value<A>, y: Value<A>, less: (Value<A>, Value<A>) -> bool) {
    less(x, y) || less(y, x)
  }

  // x is the first of the items equivalent to it.
  ghost predicate FirstOfKind<A>(items: seq<Value<A>>, x: Value<A>, less: (Value<A>, Value<A>) -> bool) {
    exists j :: 0 <= j < |items| && items[j] == x && forall k :: 0 <= k < j ==> Apart(items[k], x, less)
  }

  lemma AscendingElemsTail<A(!new)>(s: seq<Value<A>>, less: (Value<A>, Value<A>) -> bool)
    requires s != [] && AscendingElems(s, less)
    ensures AscendingElems(s[1..], less) && forall y :: y in s[1..] ==> less(s[0], y) && !less(y, s[0])
  {
    assert forall j :: 0 <= j < |s[1..]| ==> s[1..][j] == s[j + 1];
  }

  lemma AscendingElemsCons<A(!new)>(x: Value<A>, s: seq<Value<A>>, less: (Value<A>, Value<A>) -> bool)
    requires AscendingElems(s, less) && forall y :: y in s ==> less(x, y) && !less(y, x)
    ensures AscendingElems([x] + s, less)
  {
    var t := [x] + s;
    forall i, j | 0 <= i < j < |t| ensures less(t[i], t[j]) && !less(t[j], t[i]) {
      assert t[j] == s[j - 1];
      if i > 0 {
        assert t[i] == s[i - 1];
      }
    }
  }

  lemma {:induction false} InsertElemKeeps<A(!new)>(s: seq<Value<A>>, x: Value<A>, all: seq<Value<A>>, less: (Value<A>, Value<A>) -> bool)
    requires AscendingElems(s, less) && StrictWeak(all, less) && x in all && forall y :: y in s ==> y in all
    ensures AscendingElems(InsertElem(s, x, less), less)
    ensures forall y :: y in InsertElem(s, x, less) <==> y in s || (y == x && forall z :: z in s ==> Apart(z, x, less))
  {
    if s == [] {
    } else {
      AscendingElemsTail(s, less);
      assert s == [s[0]] + s[1..];
      if less(x, s[0]) {
        forall y | y in s ensures less(x, y) && !less(y, x) {
          if y in s[1..] {
            assert !less(y, s[0]);
          }
        }
        hide AscendingElems, StrictWeak;
        AscendingElemsCons(x, s, less);
      } else if less(s[0], x) {
        InsertElemKeeps(s[1..], x, all, less);
        forall y | y in InsertElem(s[1..], x, less) ensures less(s[0], y) && !less(y, s[0]) {
          assert y in s[1..] || y == x;
        }
        AscendingElemsCons(s[0], InsertElem(s[1..], x, less), less);
      } else {
        assert !Apart(s[0], x, less);
      }
    }
  }

  // s has exactly the first items of their kinds.
  ghost predicate Firsts<A(!new)>(items: seq<Value<A>>, s: seq<Value<A>>, less: (Value<A>, Value<A>) -> bool) {
    forall x :: x in s <==> FirstOfKind(items, x, less)
  }

  // Every item has an equivalent in s.
  ghost predicate Represented<A>(items: seq<Value<A>>, s: seq<Value<A>>, less: (Value<A>, Value<A>) -> bool) {
    forall z :: z in items ==> exists x :: x in s && !Apart(x, z, less)
  }

  // The set after these items.
  ghost predicate Collects<A(!new)>(items: seq<Value<A>>, s: seq<Value<A>>, less: (Value<A>, Value<A>) -> bool) {
    AscendingElems(s, less) && Firsts(items, s, less) && Represented(items, s, less)
  }

  lemma FirstOfKindSnoc<A(!new)>(items: seq<Value<A>>, y: Value<A>, x: Value<A>, less: (Value<A>, Value<A>) -> bool)
    ensures FirstOfKind(items + [y], x, less) <==>
      FirstOfKind(items, x, less) || (x == y && forall z :: z in items ==> Apart(z, y, less))
  {
    var all := items + [y];
    assert all[|items|] == y;
    assert forall k :: 0 <= k < |items| ==> all[k] == items[k];
    if FirstOfKind(all, x, less) {
      var j :| 0 <= j < |all| && all[j] == x && forall k :: 0 <= k < j ==> Apart(all[k], x, less);
      if j < |items| {
        assert items[j] == x;
      }
    }
    if FirstOfKind(items, x, less) {
      var j :| 0 <= j < |items| && items[j] == x && forall k :: 0 <= k < j ==> Apart(items[k], x, less);
      assert all[j] == x;
    }
  }

  lemma EquivalentToBoth<A(!new)>(x: Value<A>, z: Value<A>, y: Value<A>, all: seq<Value<A>>, less: (Value<A>, Value<A>) -> bool)
    requires StrictWeak(all, less) && x in all && z in all && y in all && !Apart(x, z, less) && !Apart(z, y, less)
    ensures !Apart(x, y, less)
  {
    assert less(x, y) ==> less(x, z) || less(z, y);
    assert less(y, x) ==> less(y, z) || less(z, x);
  }

  // A value is apart from what was collected iff it is apart from all the items.
  lemma ApartFromAll<A(!new)>(items: seq<Value<A>>, s: seq<Value<A>>, y: Value<A>, all: seq<Value<A>>, less: (Value<A>, Value<A>) -> bool)
    requires Collects(items, s, less) && StrictWeak(all, less) && y in all && forall z :: z in items ==> z in all
    ensures forall x :: x in s ==> x in items
    ensures (forall z :: z in s ==> Apart(z, y, less)) <==> (forall z :: z in items ==> Apart(z, y, less))
  {
    hide FirstOfKind, AscendingElems, StrictWeak, Apart;
    forall x | x in s ensures x in items {
      assert Firsts(items, s, less);
      FirstIsItem(items, x, less);
    }
    if z :| z in items && !Apart(z, y, less) {
      var x :| x in s && !Apart(x, z, less);
      EquivalentToBoth(x, z, y, all, less);
    }
  }

  lemma FirstIsItem<A(!new)>(items: seq<Value<A>>, x: Value<A>, less: (Value<A>, Value<A>) -> bool)
    requires FirstOfKind(items, x, less)
    ensures x in items
  {
  }

  lemma KindsKept<A(!new)>(items: seq<Value<A>>, s: seq<Value<A>>, t: seq<Value<A>>, y: Value<A>, less: (Value<A>, Value<A>) -> bool)
    requires Represented(items, s, less) && !less(y, y)
    requires forall x :: x in t <==> x in s || (x == y && forall z :: z in s ==> Apart(z, y, less))
    ensures Represented(items + [y], t, less)
  {
    forall z | z in items + [y] ensures exists x :: x in t && !Apart(x, z, less) {
      if z in items {
        var x :| x in s && !Apart(x, z, less);
        assert x in t;
      } else if forall x :: x in s ==> Apart(x, y, less) {
        assert y in t && !Apart(y, y, less);
      } else {
        var x :| x in s && !Apart(x, y, less);
        assert x in t;
      }
    }
  }

  lemma Irreflexive<A(!new)>(y: Value<A>, all: seq<Value<A>>, less: (Value<A>, Value<A>) -> bool)
    requires StrictWeak(all, less) && y in all
    ensures !less(y, y)
  {
  }

  lemma CollectsOne<A(!new)>(items: seq<Value<A>>, s: seq<Value<A>>, y: Value<A>, all: seq<Value<A>>, less: (Value<A>, Value<A>) -> bool)
    requires Collects(items, s, less) && StrictWeak(all, less) && y in all && forall z :: z in items ==> z in all
    ensures Collects(items + [y], InsertElem(s, y, less), less)
  {
    hide InsertElem, AscendingElems, Firsts, FirstOfKind, Represented, Apart, StrictWeak;
    ApartFromAll(items, s, y, all, less);
    InsertElemKeeps(s, y, all, less);
    var t := InsertElem(s, y, less);
    Irreflexive(y, all, less);
    FirstsKept(items, s, t, y, less);
    KindsKept(items, s, t, y, less);
  }

  lemma FirstsKept<A(!new)>(items: seq<Value<A>>, s: seq<Value<A>>, t: seq<Value<A>>, y: Value<A>, less: (Value<A>, Value<A>) -> bool)
    requires Firsts(items, s, less)
    requires forall x :: x in t <==> x in s || (x == y && forall z :: z in s ==> Apart(z, y, less))
    requires (forall z :: z in s ==> Apart(z, y, less)) <==> (forall z :: z in items ==> Apart(z, y, less))
    ensures Firsts(items + [y], t, less)
  {
    hide FirstOfKind, Apart;
    forall x ensures x in t <==> FirstOfKind(items + [y], x, less) {
      FirstOfKindSnoc(items, y, x, less);
    }
  }

  lemma {:induction false} InsertAllCollects<A(!new)>(items: seq<Value<A>>, all: seq<Value<A>>, less: (Value<A>, Value<A>) -> bool)
    requires StrictWeak(all, less) && forall z :: z in items ==> z in all
    ensures Collects(items, InsertAll(items, less), less)
  {
    hide InsertElem, StrictWeak;
    if items != [] {
      var init, last := items[..|items| - 1], items[|items| - 1];
      InsertAllCollects(init, all, less);
      assert items == init + [last];
      hide Collects;
      CollectsOne(init, InsertAll(init, less), last, all, less);
    }
  }

  // Two ascending sequences of the same values are the same.
  lemma {:induction false} AscendingOnce<A(!new)>(s: seq<Value<A>>, t: seq<Value<A>>, less: (Value<A>, Value<A>) -> bool)
    requires AscendingElems(s, less) && AscendingElems(t, less) && forall x :: x in s <==> x in t
    ensures s == t
  {
    assert t != [] ==> t[0] in t;
    if s != [] {
      assert s[0] in s && s[0] in t;
      AscendingElemsTail(s, less);
      AscendingElemsTail(t, less);
      assert s == [s[0]] + s[1..] && t == [t[0]] + t[1..];
      assert t[0] in t && t[0] in s;
      assert s[0] == t[0];
      forall x ensures x in s[1..] <==> x in t[1..] {
        assert x in s[1..] ==> x in s && x in t && x != s[0];
        assert x in t[1..] ==> x in t && x in s && x != t[0];
      }
      AscendingOnce(s[1..], t[1..], less);
    }
  }

  /** The set cast reads exactly the set: ascending in its order, and from the items that
      are equivalent to each other the first one. */
  lemma SetIff<A(!new)>(elem: Shape, text: string, items: seq<Value<A>>, v: Value<A>, env: Env<A>)
    requires env.load(text).Ok? && CastsTo(elem, env.load(text).value, items, env) && StrictWeak(items, env.less)
    ensures FromStr(SetOf(elem), text, env) == Ok(v) <==>
      v.Elems? && AscendingElems(v.elems, env.less) && forall x :: x in v.elems <==> FirstOfKind(items, x, env.less)
  {
    ItemsRead(elem, env.load(text).value, items, 0, true, env);
    InsertAllCollects(items, items, env.less);
    var s := InsertAll(items, env.less);
    hide FirstOfKind, AscendingElems, StrictWeak, CastsTo, InsertAll;
    assert FromStr(SetOf(elem), text, env) == Ok(Elems(s));
    if v.Elems? && AscendingElems(v.elems, env.less) && forall x :: x in v.elems <==> FirstOfKind(items, x, env.less) {
      AscendingOnce(v.elems, s, env.less);
    }
  }

  // ---------------------------------------------------------------- maps

  ghost predicate EntriesCastTo<A>(elem: Shape, es: seq<Entry>, bs: seq<Binding<A>>, env: Env<A>) {
    |bs| == |es| && forall j :: 0 <= j < |es| ==> bs[j].key == es[j].key && FromStr(elem, env.emit(es[j].value), env) == Ok(bs[j].value)
  }

  ghost predicate FirstOfKey<A>(bs: seq<Binding<A>>, b: Binding<A>) {
    exists j :: 0 <= j < |bs| && bs[j] == b && forall k :: 0 <= k < j ==> bs[k].key != b.key
  }

  function InsertBindings<A>(bs: seq<Binding<A>>): seq<Binding<A>> {
    if bs == [] then [] else InsertBinding(InsertBindings(bs[..|bs| - 1]), bs[|bs| - 1])
  }

  lemma {:induction false} EntriesRead<A(!new)>(elem: Shape, es: seq<Entry>, bs: seq<Binding<A>>, i: nat, env: Env<A>)
    requires i <= |es| && EntriesCastTo(elem, es, bs, env)
    ensures ReadEntries(elem, es[i..], InsertBindings(bs[..i]), env) == Ok(Dict(InsertBindings(bs)))
    decreases |es| - i
  {
    hide FromStr, InsertBinding;
    if i == |es| {
      assert bs[..i] == bs;
    } else {
      EntriesRead(elem, es, bs, i + 1, env);
      assert es[i..][1..] == es[i + 1..];
      assert bs[..i + 1][..i] == bs[..i];
    }
  }

  lemma {:induction false} EntriesThrow<A(!new)>(elem: Shape, es: seq<Entry>, done: seq<Binding<A>>, env: Env<A>)
    ensures ReadEntries(elem, es, done, env).Thrown? <==>
      exists j :: 0 <= j < |es| && FromStr(elem, env.emit(es[j].value), env).Thrown?
    decreases es
  {
    hide FromStr, InsertBinding;
    if es != [] {
      var x := FromStr(elem, env.emit(es[0].value), env);
      if x.Ok? {
        EntriesThrow(elem, es[1..], InsertBinding(done, Binding(es[0].key, x.value)), env);
      }
      assert forall j :: 0 < j < |es| ==> es[j] == es[1..][j - 1];
    }
  }

  lemma AscendingKeysTail<A(!new)>(s: seq<Binding<A>>)
    requires s != [] && AscendingKeys(s)
    ensures AscendingKeys(s[1..]) && forall b :: b in s[1..] ==> StringLess(s[0].key, b.key)
  {
    assert forall j :: 0 <= j < |s[1..]| ==> s[1..][j] == s[j + 1];
  }

  lemma AscendingKeysCons<A(!new)>(b: Binding<A>, s: seq<Binding<A>>)
    requires AscendingKeys(s) && forall c :: c in s ==> StringLess(b.key, c.key)
    ensures AscendingKeys([b] + s)
  {
    var t := [b] + s;
    forall i, j | 0 <= i < j < |t| ensures StringLess(t[i].key, t[j].key) {
      assert t[j] == s[j - 1];
      if i > 0 {
        assert t[i] == s[i - 1];
      }
    }
  }

  lemma {:induction false} InsertBindingKeeps<A(!new)>(s: seq<Binding<A>>, b: Binding<A>)
    requires AscendingKeys(s)
    ensures AscendingKeys(InsertBinding(s, b))
    ensures forall c :: c in InsertBinding(s, b) <==> c in s || (c == b && forall d :: d in s ==> d.key != b.key)
  {
    hide AscendingKeys;
    if s == [] {
      AscendingKeysCons(b, s);
    } else {
      AscendingKeysTail(s);
      assert s == [s[0]] + s[1..];
      StringLessTotal(b.key, s[0].key);
      if StringLess(b.key, s[0].key) {
        forall c | c in s ensures StringLess(b.key, c.key) && c.key != b.key {
          if c != s[0] {
            StringLessTransitive(b.key, s[0].key, c.key);
          }
          StringLessTotal(b.key, c.key);
        }
        AscendingKeysCons(b, s);
      } else if s[0].key != b.key {
        InsertBindingKeeps(s[1..], b);
        forall c | c in InsertBinding(s[1..], b) ensures StringLess(s[0].key, c.key) {
          assert c in s[1..] || c == b;
        }
        AscendingKeysCons(s[0], InsertBinding(s[1..], b));
      }
    }
  }

  lemma FirstOfKeySnoc<A(!new)>(bs: seq<Binding<A>>, c: Binding<A>, b: Binding<A>)
    ensures FirstOfKey(bs + [c], b) <==> FirstOfKey(bs, b) || (b == c && forall d :: d in bs ==> d.key != c.key)
  {
    var all := bs + [c];
    assert all[|bs|] == c;
    assert forall k :: 0 <= k < |bs| ==> all[k] == bs[k];
    if FirstOfKey(all, b) {
      var j :| 0 <= j < |all| && all[j] == b && forall k :: 0 <= k < j ==> all[k].key != b.key;
      if j < |bs| {
        assert bs[j] == b;
      }
    }
    if FirstOfKey(bs, b) {
      var j :| 0 <= j < |bs| && bs[j] == b && forall k :: 0 <= k < j ==> bs[k].key != b.key;
      assert all[j] == b;
    }
  }

  lemma {:induction false} FirstWithKey<A(!new)>(bs: seq<Binding<A>>, key: string) returns (j: nat)
    requires exists b :: b in bs && b.key == key
    ensures j < |bs| && bs[j].key == key && FirstOfKey(bs, bs[j])
  {
    j := 0;
    while bs[j].key != key
      invariant j < |bs| && forall k :: 0 <= k < j ==> bs[k].key != key
      decreases |bs| - j
    {
      j := j + 1;
    }
  }

  lemma {:induction false} InsertBindingsCollect<A(!new)>(bs: seq<Binding<A>>)
    ensures AscendingKeys(InsertBindings(bs))
    ensures forall b :: b in InsertBindings(bs) <==> FirstOfKey(bs, b)
  {
    hide InsertBinding, AscendingKeys;
    if bs == [] {
      assert AscendingKeys<A>([]) by {
        NoKeys<A>();
      }
    } else {
      var init, last := bs[..|bs| - 1], bs[|bs| - 1];
      var s := InsertBindings(init);
      InsertBindingsCollect(init);
      assert bs == init + [last];
      InsertBindingKeeps(s, last);
      assert (forall d :: d in s ==> d.key != last.key) <==> (forall d :: d in init ==> d.key != last.key) by {
        if d :| d in init && d.key == last.key {
          var j := FirstWithKey(init, last.key);
          assert init[j] in s;
        }
        if d :| d in s && d.key == last.key {
          assert FirstOfKey(init, d);
        }
      }
      forall b ensures b in InsertBindings(bs) <==> FirstOfKey(bs, b) {
        FirstOfKeySnoc(init, last, b);
      }
    }
  }

  lemma NoKeys<A(!new)>()
    ensures AscendingKeys<A>([])
  {
  }

  lemma {:induction false} AscendingKeysOnce<A(!new)>(s: seq<Binding<A>>, t: seq<Binding<A>>)
    requires AscendingKeys(s) && AscendingKeys(t) && forall b :: b in s <==> b in t
    ensures s == t
  {
    assert t != [] ==> t[0] in t;
    if s != [] {
      assert s[0] in s && s[0] in t;
      AscendingKeysTail(s);
      AscendingKeysTail(t);
      assert s == [s[0]] + s[1..] && t == [t[0]] + t[1..];
      assert t[0] in t && t[0] in s;
      StringLessTotal(s[0].key, t[0].key);
      assert s[0] == t[0];
      forall b ensures b in s[1..] <==> b in t[1..] {
        StringLessTotal(s[0].key, b.key);
        assert b in s[1..] ==> b in s && b in t && b != s[0];
        assert b in t[1..] ==> b in t && b in s && b != t[0];
      }
      AscendingKeysOnce(s[1..], t[1..]);
    }
  }

  /** The map cast reads exactly the map: keys ascending, and for every key the first value
      given for it; a node without entries reads as the empty map, except that the items of
      a sequence have no keys. */
  lemma MapIff<A(!new)>(elem: Shape, text: string, v: Value<A>, bs: seq<Binding<A>>, env: Env<A>)
    requires env.load(text).Ok?
    requires env.load(text).value.Map? ==> EntriesCastTo(elem, env.load(text).value.entries, bs, env)
    requires !env.load(text).value.Map? ==> bs == []
    ensures FromStr(MapOf(elem), text, env) == Ok(v) <==>
      v.Dict? && AscendingKeys(v.entries) && (forall b :: b in v.entries <==> FirstOfKey(bs, b)) &&
      !(env.load(text).value.Sequence? && env.load(text).value.elems != [])
  {
    var node := env.load(text).value;
    InsertBindingsCollect(bs);
    if node.Map? {
      EntriesRead(elem, node.entries, bs, 0, env);
      assert node.entries[0..] == node.entries;
    }
    var s := InsertBindings(bs);
    assert !(node.Sequence? && node.elems != []) ==> FromStr(MapOf(elem), text, env) == Ok(Dict(s));
    hide FirstOfKey, AscendingKeys, EntriesCastTo, InsertBindings;
    if v.Dict? && AscendingKeys(v.entries) && forall b :: b in v.entries <==> FirstOfKey(bs, b) {
      AscendingKeysOnce(v.entries, s);
    }
  }

  /** It throws iff the text does not load, some value cannot be cast, or a sequence has items. */
  lemma MapThrowsIff<A(!new)>(elem: Shape, text: string, env: Env<A>)
    ensures var load := env.load(text);
      FromStr(MapOf(elem), text, env).Thrown? <==>
        load.Thrown? || (load.value.Sequence? && load.value.elems != []) ||
        (load.value.Map? && exists j :: 0 <= j < |load.value.entries| && FromStr(elem, env.emit(load.value.entries[j].value), env).Thrown?)
  {
    if env.load(text).Ok? && env.load(text).value.Map? {
      EntriesThrow(elem, env.load(text).value.entries, [], env);
    }
  }

  // ---------------------------------------------------------------- what the casts write

  // The values, each cast to text and loaded again.
  ghost predicate LoadsAs<A>(elems: seq<Value<A>>, ns: seq<Node>, env: Env<A>) {
    |ns| == |elems| && forall j :: 0 <= j < |elems| ==> LoadOne(elems[j], env) == Ok(ns[j])
  }

  lemma {:induction false} LoadElemsIff<A(!new)>(elems: seq<Value<A>>, ns: seq<Node>, env: Env<A>)
    ensures LoadElems(elems, env) == Ok(ns) <==> LoadsAs(elems, ns, env)
    decreases elems
  {
    hide LoadOne;
    if elems != [] {
      if ns != [] {
        LoadElemsIff(elems[1..], ns[1..], env);
        assert ns == [ns[0]] + ns[1..];
        assert forall j :: 0 < j < |elems| ==> elems[j] == elems[1..][j - 1];
        assert forall j :: 0 < j < |ns| ==> ns[j] == ns[1..][j - 1];
      }
      var rest := LoadElems(elems[1..], env);
      if LoadElems(elems, env) == Ok(ns) {
        assert ns[1..] == rest.value;
      }
    }
  }

  /** A vector, list or set is written as the sequence of its values, each cast and loaded;
      an empty one as the null node. */
  lemma ElemsWrittenIff<A(!new)>(elems: seq<Value<A>>, text: string, env: Env<A>)
    ensures ToStr(Elems(elems), env) == Ok(text) <==>
      exists ns :: LoadsAs(elems, ns, env) && text == env.emit(if elems == [] then Null else Sequence(ns))
  {
    hide LoadOne;
    var r := LoadElems(elems, env);
    if r.Ok? {
      LoadElemsIff(elems, r.value, env);
    }
    if ns :| LoadsAs(elems, ns, env) && text == env.emit(if elems == [] then Null else Sequence(ns)) {
      LoadElemsIff(elems, ns, env);
    }
  }

  // The keys with their values, each cast to text and loaded again.
  ghost predicate LoadsUnder<A>(bs: seq<Binding<A>>, es: seq<Entry>, env: Env<A>) {
    |es| == |bs| && forall j :: 0 <= j < |bs| ==> es[j].key == bs[j].key && LoadOne(bs[j].value, env) == Ok(es[j].value)
  }

  lemma {:induction false} LoadEntriesIff<A(!new)>(bs: seq<Binding<A>>, es: seq<Entry>, env: Env<A>)
    ensures LoadEntries(bs, env) == Ok(es) <==> LoadsUnder(bs, es, env)
    decreases bs
  {
    hide LoadOne;
    if bs != [] {
      if es != [] {
        LoadEntriesIff(bs[1..], es[1..], env);
        assert es == [es[0]] + es[1..];
        assert forall j :: 0 < j < |bs| ==> bs[j] == bs[1..][j - 1];
        assert forall j :: 0 < j < |es| ==> es[j] == es[1..][j - 1];
      }
      var rest := LoadEntries(bs[1..], env);
      if LoadEntries(bs, env) == Ok(es) {
        assert es[1..] == rest.value;
      }
    }
  }

  /** A map is written as the map node of its keys and values, each value cast and loaded. */
  lemma DictWrittenIff<A(!new)>(bs: seq<Binding<A>>, text: string, env: Env<A>)
    ensures ToStr(Dict(bs), env) == Ok(text) <==> exists es :: LoadsUnder(bs, es, env) && text == env.emit(Map(es))
  {
    hide LoadOne;
    var r := LoadEntries(bs, env);
    if r.Ok? {
      LoadEntriesIff(bs, r.value, env);
    }
    if es :| LoadsUnder(bs, es, env) && text == env.emit(Map(es)) {
      LoadEntriesIff(bs, es, env);
    }
  }
}
