/** The nodes a tree lists, by the keys that lead to them, and how keys spell a path. */
module Routes {
  import opened Basics
  import opened Yaml

  // ---------------------------------------------------------------- keys that lead to a node

  predicate Reached(root: Node, keys: seq<string>, node: Node)
    decreases keys
  {
    if keys == [] then root == node
    else root.Map? && exists j :: 0 <= j < |root.entries| && root.entries[j].key == keys[0] && Reached(root.entries[j].value, keys[1..], node)
  }

  // Every node with the keys that lead to it, in pre-order.
  function Routes(node: Node): seq<(seq<string>, Node)>
    decreases node, 1
  {
    [([], node)] + (if node.Map? then EntryRoutes(node.entries) else [])
  }

  function EntryRoutes(entries: seq<Entry>): seq<(seq<string>, Node)>
    decreases entries, 0
  {
    if entries == [] then [] else Under(entries[0].key, Routes(entries[0].value)) + EntryRoutes(entries[1..])
  }

  function Under(key: string, rs: seq<(seq<string>, Node)>): (us: seq<(seq<string>, Node)>)
    ensures |us| == |rs| && forall j :: 0 <= j < |rs| ==> us[j] == ([key] + rs[j].0, rs[j].1)
  {
    if rs == [] then [] else [([key] + rs[0].0, rs[0].1)] + Under(key, rs[1..])
  }

  lemma UnderIff(key: string, rs: seq<(seq<string>, Node)>, keys: seq<string>, node: Node)
    ensures (keys, node) in Under(key, rs) <==> keys != [] && keys[0] == key && (keys[1..], node) in rs
  {
    var us := Under(key, rs);
    if (keys, node) in us {
      var j :| 0 <= j < |us| && us[j] == (keys, node);
      assert ([key] + rs[j].0)[1..] == rs[j].0;
    }
    if keys != [] && keys[0] == key && (keys[1..], node) in rs {
      var j :| 0 <= j < |rs| && rs[j] == (keys[1..], node);
      assert [key] + keys[1..] == keys;
      assert us[j] == (keys, node);
    }
  }

  lemma {:induction false} RoutesIff(root: Node, keys: seq<string>, node: Node)
    ensures (keys, node) in Routes(root) <==> Reached(root, keys, node)
    decreases root, 1
  {
    if root.Map? {
      EntryRoutesIff(root.entries, keys, node);
    }
  }

  lemma {:induction false} EntryRoutesIff(entries: seq<Entry>, keys: seq<string>, node: Node)
    ensures (keys, node) in EntryRoutes(entries) <==>
      keys != [] && exists j :: 0 <= j < |entries| && entries[j].key == keys[0] && Reached(entries[j].value, keys[1..], node)
    decreases entries, 0
  {
    hide Routes, Reached;
    if entries != [] {
      var first, rest := entries[0], entries[1..];
      UnderIff(first.key, Routes(first.value), keys, node);
      if keys != [] {
        RoutesIff(first.value, keys[1..], node);
      }
      EntryRoutesIff(rest, keys, node);
      assert forall j :: 0 < j < |entries| ==> entries[j] == rest[j - 1];
    }
  }

  // ---------------------------------------------------------------- how keys spell a path

  function Tail(keys: seq<string>): string {
    if keys == [] then "" else "." + keys[0] + Tail(keys[1..])
  }

  // The keys with dots between them; nothing is put between an empty beginning and the next key.
  function Dotted(keys: seq<string>): string {
    if keys == [] then ""
    else if keys[0] == "" then Dotted(keys[1..])
    else keys[0] + Tail(keys[1..])
  }

  function Extended(prefix: string, keys: seq<string>): string {
    if prefix == "" then Dotted(keys) else prefix + Tail(keys)
  }

  function Spelled(prefix: string, rs: seq<(seq<string>, Node)>): (ps: seq<(string, Node)>)
    ensures |ps| == |rs| && forall j :: 0 <= j < |rs| ==> ps[j] == (Extended(prefix, rs[j].0), rs[j].1)
  {
    if rs == [] then [] else [(Extended(prefix, rs[0].0), rs[0].1)] + Spelled(prefix, rs[1..])
  }

  lemma ExtendedJoin(prefix: string, key: string, keys: seq<string>)
    ensures Extended(Join(prefix, key), keys) == Extended(prefix, [key] + keys)
  {
    assert ([key] + keys)[1..] == keys;
    if prefix != "" {
      assert prefix + "." + key + Tail(keys) == prefix + ("." + key + Tail(keys));
    }
  }

  lemma SpelledUnder(prefix: string, key: string, rs: seq<(seq<string>, Node)>)
    ensures Spelled(prefix, Under(key, rs)) == Spelled(Join(prefix, key), rs)
  {
    hide Join, Extended;
    forall j | 0 <= j < |rs| ensures Spelled(prefix, Under(key, rs))[j] == Spelled(Join(prefix, key), rs)[j] {
      ExtendedJoin(prefix, key, rs[j].0);
    }
  }

  lemma SpelledConcat(prefix: string, rs: seq<(seq<string>, Node)>, ss: seq<(seq<string>, Node)>)
    ensures Spelled(prefix, rs + ss) == Spelled(prefix, rs) + Spelled(prefix, ss)
  {
    hide Extended;
  }

  lemma ExtendedNothing(prefix: string)
    ensures Extended(prefix, []) == prefix
  {
    assert prefix + "" == prefix;
  }

  lemma {:induction false} PathsAreSpelled(prefix: string, node: Node)
    ensures Paths(prefix, node) == Spelled(prefix, Routes(node))
    decreases node, 1
  {
    hide Extended, Join;
    ExtendedNothing(prefix);
    var rest := if node.Map? then EntryRoutes(node.entries) else [];
    SpelledConcat(prefix, [([], node)], rest);
    assert Spelled(prefix, [([], node)]) == [(prefix, node)];
    if node.Map? {
      EntryPathsAreSpelled(prefix, node.entries);
    }
  }

  lemma {:induction false} EntryPathsAreSpelled(prefix: string, entries: seq<Entry>)
    ensures EntryPaths(prefix, entries) == Spelled(prefix, EntryRoutes(entries))
    decreases entries, 0
  {
    hide Extended, Join;
    if entries != [] {
      var first := entries[0];
      PathsAreSpelled(Join(prefix, first.key), first.value);
      EntryPathsAreSpelled(prefix, entries[1..]);
      SpelledUnder(prefix, first.key, Routes(first.value));
      SpelledConcat(prefix, Under(first.key, Routes(first.value)), EntryRoutes(entries[1..]));
    }
  }

  lemma {:induction false} InValid(ps: seq<(string, Node)>, p: (string, Node))
    ensures p in Valid(ps) <==> p in ps && ValidPath(p.0)
  {
    if ps != [] {
      InValid(ps[1..], p);
      assert ps == [ps[0]] + ps[1..];
    }
  }

  /** The listing holds exactly the nodes that keys lead to, each under the path its keys
      spell, as far as that path is valid; in pre-order and as often as there are ways. */
  lemma ListedIff(root: Node, path: string, node: Node)
    ensures Flatten("", root) == Valid(Spelled("", Routes(root)))
    ensures (path, node) in Flatten("", root) <==>
      ValidPath(path) && exists keys :: Reached(root, keys, node) && path == Dotted(keys)
  {
    hide Routes, Reached, Flatten, Valid, Dotted, ValidPath, Paths;
    FlattenIsFilter("", root);
    PathsAreSpelled("", root);
    var rs := Routes(root);
    var ps := Spelled("", rs);
    InValid(ps, (path, node));
    if (path, node) in ps {
      var j :| 0 <= j < |ps| && ps[j] == (path, node);
      assert rs[j] in rs;
      RoutesIff(root, rs[j].0, node);
    }
    if keys :| Reached(root, keys, node) && path == Dotted(keys) {
      RoutesIff(root, keys, node);
      var j :| 0 <= j < |rs| && rs[j] == (keys, node);
      assert ps[j] == (path, node);
    }
  }

  // ---------------------------------------------------------------- from the path back to the keys

  // The pieces between the dots.
  function Split(s: string): (parts: seq<string>)
    ensures parts != []
  {
    if s == "" then [""]
    else if s[0] == '.' then [""] + Split(s[1..])
    else
      var parts := Split(s[1..]);
      [[s[0]] + parts[0]] + parts[1..]
  }

  // The root has the empty path.
  function KeysOf(path: string): seq<string> {
    if path == "" then [] else Split(path)
  }

  predicate PlainKey(key: string) {
    key != "" && '.' !in key
  }

  predicate PlainKeys(keys: seq<string>) {
    forall j :: 0 <= j < |keys| ==> PlainKey(keys[j])
  }

  lemma {:induction false} SplitTail(key: string, keys: seq<string>)
    requires '.' !in key && PlainKeys(keys)
    ensures Split(key + Tail(keys)) == [key] + keys
    decreases |keys|, key
  {
    var s := key + Tail(keys);
    if key != "" {
      assert s[1..] == key[1..] + Tail(keys);
      SplitTail(key[1..], keys);
      assert key == [key[0]] + key[1..];
      assert ([key[1..]] + keys)[1..] == keys;
    } else if keys == [] {
      assert s == "";
    } else {
      assert s[1..] == keys[0] + Tail(keys[1..]);
      SplitTail(keys[0], keys[1..]);
      assert [keys[0]] + keys[1..] == keys;
    }
  }

  // Plain keys can be told from the path they spell.
  lemma KeysBack(keys: seq<string>)
    requires PlainKeys(keys)
    ensures KeysOf(Dotted(keys)) == keys
  {
    if keys != [] {
      SplitTail(keys[0], keys[1..]);
      assert [keys[0]] + keys[1..] == keys;
    }
  }

  predicate PlainTree(node: Node)
    decreases node
  {
    node.Map? ==> forall j :: 0 <= j < |node.entries| ==> PlainKey(node.entries[j].key) && PlainTree(node.entries[j].value)
  }

  lemma {:induction false} PlainRoutes(root: Node, keys: seq<string>, node: Node)
    requires PlainTree(root) && Reached(root, keys, node)
    ensures PlainKeys(keys)
    decreases keys
  {
    if keys != [] {
      var j :| 0 <= j < |root.entries| && root.entries[j].key == keys[0] && Reached(root.entries[j].value, keys[1..], node);
      PlainRoutes(root.entries[j].value, keys[1..], node);
      assert keys == [keys[0]] + keys[1..];
    }
  }

  lemma {:induction false} DottedBack(s: string)
    ensures Split(s)[0] + Tail(Split(s)[1..]) == s
  {
    var parts := Split(s);
    if s == "" {
      assert parts[1..] == [];
    } else {
      DottedBack(s[1..]);
      var rest := Split(s[1..]);
      if s[0] == '.' {
        assert parts[1..] == rest;
        assert "." + rest[0] + Tail(rest[1..]) == "." + (rest[0] + Tail(rest[1..]));
        assert "" + Tail(rest) == Tail(rest);
        assert "." + s[1..] == s;
      } else {
        assert parts[1..] == rest[1..];
        assert [s[0]] + rest[0] + Tail(rest[1..]) == [s[0]] + (rest[0] + Tail(rest[1..]));
      }
    }
  }

  /** In a tree whose keys are not empty and hold no dots, a path is listed with exactly the
      nodes that its pieces between the dots lead to, key by key. */
  lemma ListedByKeys(root: Node, path: string, node: Node)
    requires PlainTree(root)
    ensures (path, node) in Flatten("", root) <==> ValidPath(path) && Reached(root, KeysOf(path), node)
  {
    hide Reached, Flatten, ValidPath, PlainTree, PlainKeys, Split;
    ListedIff(root, path, node);
    if keys :| Reached(root, keys, node) && path == Dotted(keys) {
      PlainRoutes(root, keys, node);
      KeysBack(keys);
    }
    if Reached(root, KeysOf(path), node) {
      PlainRoutes(root, KeysOf(path), node);
      SpellsItself(path);
    }
  }

  lemma SpellsItself(path: string)
    requires PlainKeys(KeysOf(path))
    ensures Dotted(KeysOf(path)) == path
  {
    if path != "" {
      DottedBack(path);
      assert PlainKey(Split(path)[0]);
    }
  }
}
