/** What the casts of "logs" definitions read from any node, field by field. */
module DefineReads {
  import opened Basics
  import opened Yaml
  import opened Compiler
  import opened Logging
  import opened LogConfig
  import opened DefineCast

  // ---------------------------------------------------------------- fields of a node

  // The first entry with the key holds v.
  predicate Holds(node: Node, key: string, v: Node) {
    node.Map? && exists j :: 0 <= j < |node.entries| && node.entries[j] == Entry(key, v) && forall k :: 0 <= k < j ==> node.entries[k].key != key
  }

  // The node can be looked into, and has no entry with the key.
  predicate Lacks(node: Node, key: string) {
    !node.Scalar? && (node.Map? ==> forall j :: 0 <= j < |node.entries| ==> node.entries[j].key != key)
  }

  predicate HasText(node: Node, key: string, text: string) {
    Holds(node, key, Scalar(text))
  }

  // A text that may be missing, which counts as empty.
  predicate Optional(node: Node, key: string, text: string) {
    HasText(node, key, text) || (Lacks(node, key) && text == "")
  }

  lemma {:induction false} ValueUnderIff(entries: seq<Entry>, key: string, v: Node)
    ensures ValueUnder(entries, key) == Some(v) <==> Holds(Map(entries), key, v)
    ensures ValueUnder(entries, key) == None <==> Lacks(Map(entries), key)
  {
    if entries != [] {
      ValueUnderIff(entries[1..], key, v);
      var rest := Map(entries[1..]);
      assert forall k :: 0 < k < |entries| ==> entries[k] == rest.entries[k - 1];
      if entries[0].key != key {
        HoldsBehind(entries, key, v);
      } else if v == entries[0].value {
        assert entries[0] == Entry(key, v);
      }
    }
  }

  lemma HoldsBehind(entries: seq<Entry>, key: string, v: Node)
    requires entries != [] && entries[0].key != key
    ensures Holds(Map(entries), key, v) <==> Holds(Map(entries[1..]), key, v)
  {
    var rest := entries[1..];
    assert forall k :: 0 < k < |entries| ==> entries[k] == rest[k - 1];
    if Holds(Map(entries), key, v) {
      var j :| 0 <= j < |entries| && entries[j] == Entry(key, v) && forall k :: 0 <= k < j ==> entries[k].key != key;
      assert rest[j - 1] == Entry(key, v);
      assert forall k :: 0 <= k < j - 1 ==> rest[k] == entries[k + 1];
    }
    if Holds(Map(rest), key, v) {
      var j :| 0 <= j < |rest| && rest[j] == Entry(key, v) && forall k :: 0 <= k < j ==> rest[k].key != key;
      assert entries[j + 1] == Entry(key, v);
    }
  }

  // A lookup throws on a scalar, and otherwise finds the first entry with the key.
  lemma SubIff(node: Node, key: string, v: Node)
    ensures Sub(node, key) == Ok(Some(v)) <==> Holds(node, key, v)
    ensures Sub(node, key) == Ok(None) <==> Lacks(node, key)
  {
    if node.Map? {
      ValueUnderIff(node.entries, key, v);
    }
  }

  lemma SubTextIff(node: Node, key: string, text: string)
    ensures (exists v :: Sub(node, key) == Ok(Some(v)) && AsString(v) == Ok(text)) <==> HasText(node, key, text)
  {
    SubIff(node, key, Scalar(text));
    if v :| Sub(node, key) == Ok(Some(v)) && AsString(v) == Ok(text) {
      assert v == Scalar(text);
    }
    if HasText(node, key, text) {
      assert AsString(Scalar(text)) == Ok(text);
    }
  }

  lemma OptionalIff(node: Node, key: string, text: string)
    ensures TextUnder(node, key, "") == Ok(text) <==> Optional(node, key, text)
  {
    SubIff(node, key, Scalar(text));
    hide Holds, Lacks, ValueUnder;
  }

  // ---------------------------------------------------------------- levels

  // A level's name, in upper or in lower case; every other text is level 0.
  lemma LevelFromIff(text: string, l: Level)
    ensures LevelFrom(text) == l <==>
      if l > 0 then text == LevelText(l) || text == ToLower(LevelText(l))
      else forall k: Level :: k > 0 ==> text != LevelText(k) && text != ToLower(LevelText(k))
  {
    LowerNames();
    hide ToLower;
    assert LevelFrom(text) > 0 ==> text == LevelText(LevelFrom(text)) || text == ToLower(LevelText(LevelFrom(text)));
  }

  lemma LowerNames()
    ensures ToLower("DEBUG") == "debug" && ToLower("INFO") == "info" && ToLower("WARN") == "warn"
    ensures ToLower("ERROR") == "error" && ToLower("FATAL") == "fatal"
  {
  }

  // ---------------------------------------------------------------- one appender entry

  // The entry asks for this appender.
  ghost predicate Describes(a: Node, d: LogAppenderDefine) {
    Optional(a, "formatter", d.formatter) && (exists level :: Optional(a, "level", level) && LevelFrom(level) == d.level) &&
    (if d.kind == 1 then HasText(a, "type", "FileLogAppender") && HasText(a, "file", d.file)
     else d.kind == 2 && HasText(a, "type", "StdoutLogAppender") && d.file == "")
  }

  // The entry is reported and skipped: no type, an unknown one, or a file type without a file.
  ghost predicate Skipped(a: Node) {
    Lacks(a, "type") ||
    (exists kind :: HasText(a, "type", kind) && kind != "FileLogAppender" && kind != "StdoutLogAppender") ||
    (HasText(a, "type", "FileLogAppender") && Lacks(a, "file"))
  }

  lemma FieldsIff(a: Node, kind: int, file: string, d: LogAppenderDefine)
    ensures AppenderFields(a, kind, file) == Ok(Some(d)) <==>
      d.kind == kind && d.file == file && Optional(a, "formatter", d.formatter) &&
      exists level :: Optional(a, "level", level) && LevelFrom(level) == d.level
    ensures AppenderFields(a, kind, file) != Ok(None)
  {
    hide TextUnder, Optional, LevelFrom;
    OptionalIff(a, "formatter", d.formatter);
    forall level ensures TextUnder(a, "level", "") == Ok(level) <==> Optional(a, "level", level) {
      OptionalIff(a, "level", level);
    }
  }

  // What the text under a key is, if there is one.
  lemma TextOf(node: Node, key: string)
    ensures var sub := Sub(node, key);
      (sub == Ok(None) <==> Lacks(node, key)) &&
      forall text :: HasText(node, key, text) <==> sub == Ok(Some(Scalar(text)))
  {
    SubIff(node, key, Null);
    forall text ensures HasText(node, key, text) <==> Sub(node, key) == Ok(Some(Scalar(text))) {
      SubIff(node, key, Scalar(text));
    }
  }

  /** An entry is read as an appender iff it describes that appender. */
  lemma AppenderFromIff(a: Node, d: LogAppenderDefine)
    ensures AppenderFrom(a) == Ok(Some(d)) <==> Describes(a, d)
  {
    hide Sub, HasText, Lacks, Optional, AppenderFields, LevelFrom;
    TextOf(a, "type");
    TextOf(a, "file");
    FieldsIff(a, d.kind, d.file, d);
    var t, f := Sub(a, "type"), Sub(a, "file");
    if t.Ok? && t.value.Some? && t.value.value.Scalar? {
      assert HasText(a, "type", t.value.value.text);
      FieldsIff(a, 2, "", d);
      if f.Ok? && f.value.Some? && f.value.value.Scalar? {
        assert HasText(a, "file", f.value.value.text);
        FieldsIff(a, 1, f.value.value.text, d);
      }
    }
  }

  /** An entry is skipped iff it has no type, an unknown one, or a file type without a file;
      it makes the cast throw iff it is neither skipped nor describes an appender. */
  lemma SkippedIff(a: Node)
    ensures AppenderFrom(a) == Ok(None) <==> Skipped(a)
    ensures AppenderFrom(a).Thrown? <==> !Skipped(a) && forall d :: !Describes(a, d)
  {
    hide Sub, HasText, Lacks, Optional, AppenderFields, LevelFrom, Describes;
    TextOf(a, "type");
    TextOf(a, "file");
    var t, f, any := Sub(a, "type"), Sub(a, "file"), LogAppenderDefine(0, 0, "", "");
    if t.Ok? && t.value.Some? && t.value.value.Scalar? {
      assert HasText(a, "type", t.value.value.text);
      FieldsIff(a, 2, "", any);
      if f.Ok? && f.value.Some? && f.value.value.Scalar? {
        FieldsIff(a, 1, f.value.value.text, any);
      }
    }
    forall d ensures AppenderFrom(a) == Ok(Some(d)) <==> Describes(a, d) {
      AppenderFromIff(a, d);
    }
    var r := AppenderFrom(a);
    assert r.Ok? && r.value.Some? ==> Describes(a, r.value.value);
  }

  // ---------------------------------------------------------------- the list of appenders

  // node[i]: an element of a sequence; in a map, what is under the number as a key, if anything.
  predicate Item(node: Node, i: nat, v: Node)
    requires i < Size(node)
  {
    match node
    case Sequence(elems) => v == elems[i]
    case Map(_) => Holds(node, Digits(i), v) || (Lacks(node, Digits(i)) && v == Null)
    case _ => false
  }

  lemma AtIff(node: Node, i: nat, v: Node)
    requires i < Size(node)
    ensures At(node, i) == v <==> Item(node, i, v)
  {
    if node.Map? {
      ValueUnderIff(node.entries, Digits(i), v);
      hide Holds, Lacks, ValueUnder, Digits;
    }
  }

  // Sequences and maps have items, as many as elements or entries; other nodes have none.
  lemma SizeIs(node: Node)
    ensures node.Sequence? ==> Size(node) == |node.elems|
    ensures node.Map? ==> Size(node) == |node.entries|
    ensures !node.Sequence? && !node.Map? ==> Size(node) == 0
  {
  }

  // The entries at ks, and no others, are kept, as the appenders ds in this order.
  ghost predicate Kept(node: Node, from: nat, ks: seq<nat>, ds: seq<LogAppenderDefine>) {
    |ks| == |ds| && (forall i, j :: 0 <= i < j < |ks| ==> ks[i] < ks[j]) &&
    (forall j :: 0 <= j < |ks| ==> from <= ks[j] < Size(node) && Describes(At(node, ks[j]), ds[j])) &&
    forall i :: from <= i < Size(node) && i !in ks ==> Skipped(At(node, i))
  }

  lemma KeptOne(node: Node, from: nat, ks: seq<nat>, ds: seq<LogAppenderDefine>, d: LogAppenderDefine)
    requires from < Size(node) && Kept(node, from + 1, ks, ds) && Describes(At(node, from), d)
    ensures Kept(node, from, [from] + ks, [d] + ds)
  {
    hide Describes, Skipped, At, Size;
    var all, es := [from] + ks, [d] + ds;
    forall j | 0 <= j < |all| ensures from <= all[j] < Size(node) && Describes(At(node, all[j]), es[j]) {
      if j > 0 {
        assert all[j] == ks[j - 1] && es[j] == ds[j - 1];
      }
    }
    forall i, j | 0 <= i < j < |all| ensures all[i] < all[j] {
      assert all[j] == ks[j - 1];
      if i > 0 {
        assert all[i] == ks[i - 1];
      }
    }
    forall i | from <= i < Size(node) && i !in all ensures Skipped(At(node, i)) {
      assert all[0] == from && i !in ks;
    }
  }

  lemma KeptTail(node: Node, from: nat, ks: seq<nat>, ds: seq<LogAppenderDefine>)
    requires from < Size(node) && Kept(node, from, ks, ds) && ks != [] && ks[0] == from
    ensures Kept(node, from + 1, ks[1..], ds[1..])
  {
    hide Describes, Skipped, At, Size;
    assert forall j :: 0 <= j < |ks[1..]| ==> ks[1..][j] == ks[j + 1] && ds[1..][j] == ds[j + 1];
    assert ks == [ks[0]] + ks[1..];
  }

  lemma KeptElse(node: Node, from: nat, ks: seq<nat>, ds: seq<LogAppenderDefine>)
    requires from < Size(node)
    ensures Kept(node, from + 1, ks, ds) && Skipped(At(node, from)) ==> Kept(node, from, ks, ds)
    ensures Kept(node, from, ks, ds) && from !in ks ==> Kept(node, from + 1, ks, ds) && Skipped(At(node, from))
  {
    hide Describes, Skipped, At, Size;
  }

  lemma KeptNone(node: Node, from: nat, ks: seq<nat>, ds: seq<LogAppenderDefine>)
    requires from == Size(node)
    ensures Kept(node, from, ks, ds) <==> ks == [] && ds == []
  {
    hide Describes, Skipped, At;
    if Kept(node, from, ks, ds) && ks != [] {
      KeptBounds(node, from, ks, ds);
    }
  }

  lemma KeptBounds(node: Node, from: nat, ks: seq<nat>, ds: seq<LogAppenderDefine>)
    requires Kept(node, from, ks, ds) && ks != []
    ensures from <= ks[0] < Size(node)
  {
    hide Describes, Skipped, At, Size;
  }

  lemma FirstKept(node: Node, from: nat, ks: seq<nat>, ds: seq<LogAppenderDefine>)
    requires Kept(node, from, ks, ds) && from in ks
    ensures ks[0] == from && Describes(At(node, from), ds[0])
  {
    hide Describes, Skipped, At, Size;
    var j :| 0 <= j < |ks| && ks[j] == from;
    assert from <= ks[0];
  }

  lemma {:induction false} KeptFrom(node: Node, from: nat) returns (ks: seq<nat>)
    requires from <= Size(node) && AppendersFrom(node, from).Ok?
    ensures Kept(node, from, ks, AppendersFrom(node, from).value)
    decreases Size(node) - from
  {
    hide AppenderFrom, Describes, Skipped, At, Size, Kept;
    if from == Size(node) {
      ks := [];
      KeptNone(node, from, [], []);
    } else {
      var a := AppenderFrom(At(node, from));
      SkippedIff(At(node, from));
      var rest := AppendersFrom(node, from + 1).value;
      ks := KeptFrom(node, from + 1);
      if a.value.Some? {
        AppenderFromIff(At(node, from), a.value.value);
        KeptOne(node, from, ks, rest, a.value.value);
        ks := [from] + ks;
      } else {
        KeptElse(node, from, ks, rest);
        assert [] + rest == rest;
      }
    }
  }

  lemma {:induction false} KeptBack(node: Node, from: nat, ks: seq<nat>, ds: seq<LogAppenderDefine>)
    requires from <= Size(node) && Kept(node, from, ks, ds)
    ensures AppendersFrom(node, from) == Ok(ds)
    decreases Size(node) - from
  {
    hide AppenderFrom, Describes, Skipped, At, Size, Kept;
    if from == Size(node) {
      KeptNone(node, from, ks, ds);
    } else if from in ks {
      FirstKept(node, from, ks, ds);
      KeptTail(node, from, ks, ds);
      KeptLength(node, from, ks, ds);
      AppenderFromIff(At(node, from), ds[0]);
      KeptBack(node, from + 1, ks[1..], ds[1..]);
      assert [ds[0]] + ds[1..] == ds;
    } else {
      KeptElse(node, from, ks, ds);
      SkippedIff(At(node, from));
      KeptBack(node, from + 1, ks, ds);
      assert [] + ds == ds;
    }
  }

  lemma KeptLength(node: Node, from: nat, ks: seq<nat>, ds: seq<LogAppenderDefine>)
    requires Kept(node, from, ks, ds)
    ensures |ks| == |ds|
  {
    hide Describes, Skipped, At, Size;
  }

  /** The list read is exactly the entries that describe an appender, in order, all others
      being skipped; any entry that does neither makes the cast throw. */
  lemma AppendersFromIff(node: Node, ds: seq<LogAppenderDefine>)
    ensures AppendersFrom(node, 0) == Ok(ds) <==> exists ks :: Kept(node, 0, ks, ds)
  {
    hide Kept;
    if AppendersFrom(node, 0) == Ok(ds) {
      var ks := KeptFrom(node, 0);
    }
    if ks :| Kept(node, 0, ks, ds) {
      KeptBack(node, 0, ks, ds);
    }
  }

  // ---------------------------------------------------------------- one definition

  // The node asks for this definition.
  ghost predicate Defines(node: Node, d: LogDefine) {
    HasText(node, "name", d.name) && Optional(node, "formatter", d.formatter) &&
    (exists level :: Optional(node, "level", level) && LevelFrom(level) == d.level) &&
    ((Lacks(node, "appenders") && d.appenders == []) ||
     exists list, ks :: Holds(node, "appenders", list) && Kept(list, 0, ks, d.appenders))
  }

  lemma LevelIff(node: Node, l: Level)
    ensures (exists text :: TextUnder(node, "level", "") == Ok(text) && LevelFrom(text) == l) <==>
      exists text :: Optional(node, "level", text) && LevelFrom(text) == l
  {
    hide TextUnder, Optional, LevelFrom;
    forall text ensures TextUnder(node, "level", "") == Ok(text) <==> Optional(node, "level", text) {
      OptionalIff(node, "level", text);
    }
  }

  // The appenders of a definition: those of the list, or none if there is no list.
  lemma ListIff(node: Node, ds: seq<LogAppenderDefine>)
    ensures (Lacks(node, "appenders") && ds == []) || (exists list, ks :: Holds(node, "appenders", list) && Kept(list, 0, ks, ds)) <==>
      match Sub(node, "appenders")
      case Thrown => false
      case Ok(None) => ds == []
      case Ok(Some(list)) => AppendersFrom(list, 0) == Ok(ds)
  {
    hide Sub, Holds, Lacks, Kept, AppendersFrom;
    SubIff(node, "appenders", Null);
    var sub := Sub(node, "appenders");
    forall list ensures sub == Ok(Some(list)) <==> Holds(node, "appenders", list) {
      SubIff(node, "appenders", list);
    }
    if sub.Ok? && sub.value.Some? {
      AppendersFromIff(sub.value.value, ds);
    }
  }

  /** A node is read as a definition iff it asks for it, field by field. */
  lemma DefineFromIff(node: Node, d: LogDefine)
    ensures DefineFrom(node) == Ok(d) <==> Defines(node, d)
  {
    hide Sub, TextUnder, Holds, HasText, Lacks, Optional, Kept, AppendersFrom, LevelFrom;
    TextOf(node, "name");
    OptionalIff(node, "formatter", d.formatter);
    LevelIff(node, d.level);
    ListIff(node, d.appenders);
    var n := Sub(node, "name");
    if n.Ok? && n.value.Some? && n.value.value.Scalar? {
      assert HasText(node, "name", n.value.value.text);
    }
  }

  // ---------------------------------------------------------------- the set

  // The items of the node read as the definitions ds, one by one.
  ghost predicate AllDefine(node: Node, ds: seq<LogDefine>) {
    |ds| == Size(node) && forall i :: 0 <= i < |ds| ==> Defines(At(node, i), ds[i])
  }

  // d is the first of the definitions of its name.
  ghost predicate FirstOfName(ds: seq<LogDefine>, d: LogDefine) {
    exists i :: 0 <= i < |ds| && ds[i] == d && forall k :: 0 <= k < i ==> ds[k].name != d.name
  }

  lemma {:induction false} AllRead(node: Node, i: nat, s: seq<LogDefine>) returns (ds: seq<LogDefine>)
    requires i <= Size(node) && SetFrom(node, i, s).Ok?
    ensures |ds| == Size(node) - i && forall j :: 0 <= j < |ds| ==> DefineFrom(At(node, i + j)) == Ok(ds[j])
    decreases Size(node) - i
  {
    hide DefineFrom, At, Insert;
    if i == Size(node) {
      ds := [];
    } else {
      var d := DefineFrom(At(node, i)).value;
      ds := AllRead(node, i + 1, Insert(s, d));
      ds := [d] + ds;
    }
  }

  lemma {:induction false} AllReadBack(node: Node, i: nat, s: seq<LogDefine>)
    requires i <= Size(node) && forall j :: i <= j < Size(node) ==> DefineFrom(At(node, j)).Ok?
    ensures SetFrom(node, i, s).Ok?
    decreases Size(node) - i
  {
    hide DefineFrom, At, Insert;
    if i < Size(node) {
      AllReadBack(node, i + 1, Insert(s, DefineFrom(At(node, i)).value));
    }
  }

  lemma {:induction false} FirstNamedIff(node: Node, i: nat, ds: seq<LogDefine>, d: LogDefine)
    requires i <= Size(node) == |ds| && forall j :: 0 <= j < |ds| ==> DefineFrom(At(node, j)) == Ok(ds[j])
    ensures FirstNamed(node, i, d.name) == Some(d) <==> FirstOfName(ds[i..], d)
    decreases Size(node) - i
  {
    hide DefineFrom, At;
    if i < Size(node) {
      FirstNamedIff(node, i + 1, ds, d);
      var rest := ds[i + 1..];
      assert ds[i..] == [ds[i]] + rest;
      FirstOfNameCons(ds[i], rest, d);
    }
  }

  lemma FirstOfNameCons(c: LogDefine, rest: seq<LogDefine>, d: LogDefine)
    ensures FirstOfName([c] + rest, d) <==> if c.name == d.name then c == d else FirstOfName(rest, d)
  {
    var ds := [c] + rest;
    assert ds[0] == c;
    assert forall k :: 0 < k < |ds| ==> ds[k] == rest[k - 1];
    if FirstOfName(ds, d) {
      var i :| 0 <= i < |ds| && ds[i] == d && forall k :: 0 <= k < i ==> ds[k].name != d.name;
      if i > 0 {
        assert rest[i - 1] == d && forall k :: 0 <= k < i - 1 ==> rest[k] == ds[k + 1];
      }
    }
    if FirstOfName(rest, d) {
      var i :| 0 <= i < |rest| && rest[i] == d && forall k :: 0 <= k < i ==> rest[k].name != d.name;
      assert ds[i + 1] == d;
    }
  }

  /** The set cast reads a set iff every item asks for a definition; the set is ordered by
      name and holds, of the definitions of a name, exactly the first. */
  lemma SetFromIff(node: Node, s: seq<LogDefine>)
    ensures SetFrom(node, 0, []) == Ok(s) <==>
      Ascending(s) && exists ds :: AllDefine(node, ds) && forall d :: d in s <==> FirstOfName(ds, d)
  {
    hide DefineFrom, Defines, At, FirstOfName, Ascending;
    if SetFrom(node, 0, []) == Ok(s) {
      var ds := AllRead(node, 0, []);
      SetHolds(node, ds, s);
    }
    if Ascending(s) && exists ds :: AllDefine(node, ds) && forall d :: d in s <==> FirstOfName(ds, d) {
      var ds :| AllDefine(node, ds) && forall d :: d in s <==> FirstOfName(ds, d);
      forall j | 0 <= j < |ds| ensures DefineFrom(At(node, j)) == Ok(ds[j]) {
        DefineFromIff(At(node, j), ds[j]);
      }
      AllReadBack(node, 0, []);
      var t := SetFrom(node, 0, []).value;
      SetHolds(node, ds, t);
      SameSet(s, t);
    }
  }

  lemma SetHolds(node: Node, ds: seq<LogDefine>, s: seq<LogDefine>)
    requires SetFrom(node, 0, []) == Ok(s) && |ds| == Size(node)
    requires forall j :: 0 <= j < |ds| ==> DefineFrom(At(node, j)) == Ok(ds[j])
    ensures Ascending(s) && AllDefine(node, ds) && forall d :: d in s <==> FirstOfName(ds, d)
  {
    hide DefineFrom, Defines, At, FirstOfName, SetFrom;
    ReadSetsAreSafe(node);
    forall j | 0 <= j < |ds| ensures Defines(At(node, j), ds[j]) {
      DefineFromIff(At(node, j), ds[j]);
    }
    assert ds[0..] == ds;
    forall d ensures d in s <==> FirstOfName(ds, d) {
      FindIff(s, d);
      FirstNamedIff(node, 0, ds, d);
    }
  }

  // Two ordered sequences of the same definitions are the same.
  lemma {:induction false} SameSet(s: seq<LogDefine>, t: seq<LogDefine>)
    requires Ascending(s) && Ascending(t) && forall d :: d in s <==> d in t
    ensures s == t
  {
    hide Ascending;
    assert t != [] ==> t[0] in t;
    if s != [] {
      assert s[0] in s && s[0] in t;
      AscendingTail(s);
      AscendingTail(t);
      assert s == [s[0]] + s[1..] && t == [t[0]] + t[1..];
      assert t[0] in t && t[0] in s;
      StringLessTotal(s[0].name, t[0].name);
      assert s[0] == t[0];
      forall d ensures d in s[1..] <==> d in t[1..] {
        StringLessTotal(s[0].name, d.name);
        assert d in s[1..] ==> d in s && d in t && d != s[0];
        assert d in t[1..] ==> d in t && d in s && d != t[0];
      }
      SameSet(s[1..], t[1..]);
    }
  }
}
