/** YAML trees, and the flattening of a tree into dotted paths. */
module Yaml {
  import opened Basics

  // A parsed document.  A map keeps its entries in order; a key is the scalar text of its key node.
  datatype Node =
    | Null
    | Scalar(text: string)
    | Sequence(elems: seq<Node>)
    | Map(entries: seq<Entry>)

  datatype Entry = Entry(key: string, value: Node)

  predicate PathChar(c: char) {
    'a' <= c <= 'z' || '0' <= c <= '9' || c == '.' || c == '_'
  }

  // The paths find_first_not_of accepts.
  predicate ValidPath(path: string) {
    forall j :: 0 <= j < |path| ==> PathChar(path[j])
  }

  // The characters of the literal in ListAllMember, and no others.
  lemma PathCharIff(c: char)
    ensures PathChar(c) <==> c in LOWER + "._" + DIGITS
  {
    hide *;
    InLower(c);
    InDigits(c);
    PathCharParts(c);
  }

  lemma PathCharParts(c: char)
    ensures PathChar(c) <==> 'a' <= c <= 'z' || '0' <= c <= '9' || c in "._"
  {
  }

  function Join(prefix: string, key: string): string {
    if prefix == "" then key else prefix + "." + key
  }

  // ---------------------------------------------------------------- the recursive listing

  // What ListAllMember appends for a node, and for the entries of a map.
  function Flatten(prefix: string, node: Node): seq<(string, Node)>
    decreases node, 1
  {
    if !ValidPath(prefix) then []
    else [(prefix, node)] + (if node.Map? then FlattenEntries(prefix, node.entries) else [])
  }

  function FlattenEntries(prefix: string, entries: seq<Entry>): seq<(string, Node)>
    decreases entries, 0
  {
    if entries == [] then []
    else Flatten(Join(prefix, entries[0].key), entries[0].value) + FlattenEntries(prefix, entries[1..])
  }

  // The std::list passed by reference.
  class Listing {
    var items: seq<(string, Node)>

    constructor ()
      ensures items == []
    {
      items := [];
    }
  }

  /** Appends to output; a prefix with a forbidden character stops the descent. */
  method ListAllMember(prefix: string, node: Node, output: Listing)
    modifies output
    ensures output.items == old(output.items) + Flatten(prefix, node)
    decreases node
  {
    hide ValidPath, Join;
    if !ValidPath(prefix) {
      return;
    }
    output.items := output.items + [(prefix, node)];
    if node.Map? {
      ghost var listed := output.items;
      var i := 0;
      while i < |node.entries|
        invariant 0 <= i <= |node.entries|
        invariant output.items + FlattenEntries(prefix, node.entries[i..]) == listed + FlattenEntries(prefix, node.entries)
      {
        var entry := node.entries[i];
        FlattenHead(prefix, node.entries, i, output.items);
        ListAllMember(Join(prefix, entry.key), entry.value, output);
        i := i + 1;
      }
      assert node.entries[i..] == [];
      ghost var tail := FlattenEntries(prefix, node.entries);
      assert old(output.items) + [(prefix, node)] + tail == old(output.items) + ([(prefix, node)] + tail);
    }
  }

  lemma FlattenHead(prefix: string, entries: seq<Entry>, i: nat, before: seq<(string, Node)>)
    requires i < |entries|
    ensures before + FlattenEntries(prefix, entries[i..])
         == before + Flatten(Join(prefix, entries[i].key), entries[i].value) + FlattenEntries(prefix, entries[i + 1..])
  {
    assert entries[i..][1..] == entries[i + 1..];
  }

  // ---------------------------------------------------------------- enumerate, then filter

  // Every dotted path of the tree with its node, in pre-order, nothing left out.
  function Paths(prefix: string, node: Node): seq<(string, Node)>
    decreases node, 1
  {
    [(prefix, node)] + (if node.Map? then EntryPaths(prefix, node.entries) else [])
  }

  function EntryPaths(prefix: string, entries: seq<Entry>): seq<(string, Node)>
    decreases entries, 0
  {
    if entries == [] then []
    else Paths(Join(prefix, entries[0].key), entries[0].value) + EntryPaths(prefix, entries[1..])
  }

  function Valid(ps: seq<(string, Node)>): seq<(string, Node)> {
    if ps == [] then [] else (if ValidPath(ps[0].0) then [ps[0]] else []) + Valid(ps[1..])
  }

  lemma {:induction false} ValidConcat(ps: seq<(string, Node)>, qs: seq<(string, Node)>)
    ensures Valid(ps + qs) == Valid(ps) + Valid(qs)
  {
    if ps == [] {
      assert ps + qs == qs;
    } else {
      assert (ps + qs)[1..] == ps[1..] + qs;
      ValidConcat(ps[1..], qs);
      Assoc(if ValidPath(ps[0].0) then [ps[0]] else [], Valid(ps[1..]), Valid(qs));
    }
  }

  // A forbidden character in a path stays in every path below it.
  lemma JoinKeepsInvalid(prefix: string, key: string)
    ensures ValidPath(Join(prefix, key)) ==> ValidPath(prefix)
  {
    assert prefix <= Join(prefix, key) || prefix == "";
  }

  lemma {:induction false} InvalidBelow(prefix: string, node: Node)
    requires !ValidPath(prefix)
    ensures Valid(Paths(prefix, node)) == []
    decreases node, 1
  {
    ValidConcat([(prefix, node)], if node.Map? then EntryPaths(prefix, node.entries) else []);
    assert [(prefix, node)][1..] == [];
    if node.Map? {
      InvalidEntries(prefix, node.entries);
    }
  }

  lemma {:induction false} InvalidEntries(prefix: string, entries: seq<Entry>)
    requires !ValidPath(prefix)
    ensures Valid(EntryPaths(prefix, entries)) == []
    decreases entries, 0
  {
    if entries != [] {
      var path := Join(prefix, entries[0].key);
      JoinKeepsInvalid(prefix, entries[0].key);
      ValidConcat(Paths(path, entries[0].value), EntryPaths(prefix, entries[1..]));
      InvalidBelow(path, entries[0].value);
      InvalidEntries(prefix, entries[1..]);
    }
  }

  /** Stopping the descent early loses nothing: the listing is the pre-order list of all
      paths of the tree, filtered by validity. */
  lemma {:induction false} FlattenIsFilter(prefix: string, node: Node)
    ensures Flatten(prefix, node) == Valid(Paths(prefix, node))
    decreases node, 1
  {
    if !ValidPath(prefix) {
      InvalidBelow(prefix, node);
    } else {
      ValidConcat([(prefix, node)], if node.Map? then EntryPaths(prefix, node.entries) else []);
      assert [(prefix, node)][1..] == [];
      if node.Map? {
        FlattenEntriesIsFilter(prefix, node.entries);
      }
    }
  }

  lemma {:induction false} FlattenEntriesIsFilter(prefix: string, entries: seq<Entry>)
    ensures FlattenEntries(prefix, entries) == Valid(EntryPaths(prefix, entries))
    decreases entries, 0
  {
    if entries != [] {
      var path := Join(prefix, entries[0].key);
      ValidConcat(Paths(path, entries[0].value), EntryPaths(prefix, entries[1..]));
      FlattenIsFilter(path, entries[0].value);
      FlattenEntriesIsFilter(prefix, entries[1..]);
    }
  }

  // ::tolower in the "C" locale.
  function ToLower(s: string): (r: string)
    ensures |r| == |s|
  {
    seq(|s|, i requires 0 <= i < |s| => if 'A' <= s[i] <= 'Z' then (s[i] as int + 32) as char else s[i])
  }

  // Capital letters become the small ones at their place in the alphabet, all else stays.
  lemma ToLowerAt(s: string, j: nat)
    requires j < |s|
    ensures if s[j] in UPPER then exists i :: 0 <= i < 26 && s[j] == UPPER[i] && ToLower(s)[j] == LOWER[i] else ToLower(s)[j] == s[j]
  {
    InUpper(s[j]);
    if 'A' <= s[j] <= 'Z' {
      var i := s[j] as int - 'A' as int;
      UpperAt(i);
      LowerAt(i);
      assert s[j] == UPPER[i];
    }
  }

  lemma {:induction false} ValidIn(ps: seq<(string, Node)>, j: nat)
    requires j < |Valid(ps)|
    ensures ValidPath(Valid(ps)[j].0)
  {
    if ValidPath(ps[0].0) {
      if j > 0 {
        ValidIn(ps[1..], j - 1);
      }
    } else {
      ValidIn(ps[1..], j);
    }
  }

  /** Every listed path is already lower case, so lowering it before the lookup changes nothing. */
  lemma ListedPathsAreLower(root: Node, j: nat)
    requires j < |Flatten("", root)|
    ensures ToLower(Flatten("", root)[j].0) == Flatten("", root)[j].0
  {
    FlattenIsFilter("", root);
    ValidIn(Paths("", root), j);
  }
}
