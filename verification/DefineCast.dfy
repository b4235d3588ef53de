/** Reading "logs" definitions from YAML: LexicalCast<string, LogDefine> and the set cast over it. */
module DefineCast {
  import opened Basics
  import opened Yaml
  import opened Compiler
  import opened Logging
  import opened LogConfig
  import opened Reconciling

  // ---------------------------------------------------------------- reading nodes

  // A node looked up by key: a scalar cannot be looked into; a key that is missing is None.
  function Sub(node: Node, key: string): Result<Option<Node>> {
    match node
    case Scalar(_) => Thrown
    case Map(entries) => Ok(ValueUnder(entries, key))
    case _ => Ok(None)
  }

  function ValueUnder(entries: seq<Entry>, key: string): Option<Node> {
    if entries == [] then None
    else if entries[0].key == key then Some(entries[0].value)
    else ValueUnder(entries[1..], key)
  }

  // as<std::string>()
  function AsString(node: Node): Result<string> {
    if node.Scalar? then Ok(node.text) else Thrown
  }

  // node.size()
  function Size(node: Node): nat {
    match node
    case Sequence(elems) => |elems|
    case Map(entries) => |entries|
    case _ => 0
  }

  // node[i]: a sequence's element, a map's value under the decimal key, otherwise nothing.
  function At(node: Node, i: nat): Node {
    match node
    case Sequence(elems) => if i < |elems| then elems[i] else Null
    case Map(entries) => (match ValueUnder(entries, Digits(i)) case Some(v) => v case None => Null)
    case _ => Null
  }

  // LogLevel::FromString: each name in lower or upper case.
  function LevelFrom(s: string): Level {
    if s == "debug" || s == "DEBUG" then 1
    else if s == "info" || s == "INFO" then 2
    else if s == "warn" || s == "WARN" then 3
    else if s == "error" || s == "ERROR" then 4
    else if s == "fatal" || s == "FATAL" then 5
    else 0
  }

  // The text under a key, or the default when the key is missing.
  function TextUnder(node: Node, key: string, default: string): Result<string> {
    match Sub(node, key)
    case Thrown => Thrown
    case Ok(None) => Ok(default)
    case Ok(Some(v)) => AsString(v)
  }

  // ---------------------------------------------------------------- one definition

  // The optional fields an accepted appender of either kind reads, formatter before level.
  function AppenderFields(a: Node, kind: int, file: string): Result<Option<LogAppenderDefine>> {
    match TextUnder(a, "formatter", "")
    case Thrown => Thrown
    case Ok(formatter) =>
      match TextUnder(a, "level", "")
      case Thrown => Thrown
      case Ok(level) => Ok(Some(LogAppenderDefine(kind, LevelFrom(level), formatter, file)))
  }

  // One entry under "appenders"; None is an entry that is reported and skipped.
  function AppenderFrom(a: Node): Result<Option<LogAppenderDefine>> {
    match Sub(a, "type")
    case Thrown => Thrown
    case Ok(None) => Ok(None)
    case Ok(Some(t)) =>
      match AsString(t)
      case Thrown => Thrown
      case Ok(kind) =>
        if kind == "FileLogAppender" then
          match Sub(a, "file")
          case Thrown => Thrown
          case Ok(None) => Ok(None)
          case Ok(Some(f)) =>
            match AsString(f)
            case Thrown => Thrown
            case Ok(file) => AppenderFields(a, 1, file)
        else if kind == "StdoutLogAppender" then AppenderFields(a, 2, "")
        else Ok(None)
  }

  function AppendersFrom(node: Node, i: nat): Result<seq<LogAppenderDefine>>
    requires i <= Size(node)
    decreases Size(node) - i
  {
    if i == Size(node) then Ok([])
    else
      match AppenderFrom(At(node, i))
      case Thrown => Thrown
      case Ok(a) =>
        match AppendersFrom(node, i + 1)
        case Thrown => Thrown
        case Ok(rest) => Ok((match a case None => [] case Some(d) => [d]) + rest)
  }

  // What has been collected, followed by what is still to come.
  function Prepend(done: seq<LogAppenderDefine>, rest: Result<seq<LogAppenderDefine>>): Result<seq<LogAppenderDefine>> {
    match rest case Ok(ds) => Ok(done + ds) case Thrown => Thrown
  }

  lemma PrependStep(node: Node, i: nat, done: seq<LogAppenderDefine>)
    requires i < Size(node)
    ensures Prepend(done, AppendersFrom(node, i)) ==
      match AppenderFrom(At(node, i))
      case Thrown => Thrown
      case Ok(None) => Prepend(done, AppendersFrom(node, i + 1))
      case Ok(Some(d)) => Prepend(done + [d], AppendersFrom(node, i + 1))
  {
    hide AppenderFrom, At;
    var rest := AppendersFrom(node, i + 1);
    if rest.Ok? {
      assert [] + rest.value == rest.value;
      var a := AppenderFrom(At(node, i));
      if a.Ok? && a.value.Some? {
        assert done + ([a.value.value] + rest.value) == done + [a.value.value] + rest.value;
      }
    }
  }

  lemma PrependNothing(done: seq<LogAppenderDefine>, rest: Result<seq<LogAppenderDefine>>)
    ensures Prepend([], rest) == rest && Prepend(done, Ok([])) == Ok(done)
  {
    assert rest.Ok? ==> [] + rest.value == rest.value;
    assert done + [] == done;
  }

  // The loop over "appenders": entries without a usable type or file are skipped.
  method CastAppenders(node: Node) returns (r: Result<seq<LogAppenderDefine>>)
    ensures r == AppendersFrom(node, 0)
  {
    hide AppenderFrom, At, Size;
    var appenders: seq<LogAppenderDefine> := [];
    var i := 0;
    PrependNothing([], AppendersFrom(node, 0));
    while i < Size(node)
      invariant 0 <= i <= Size(node)
      invariant Prepend(appenders, AppendersFrom(node, i)) == AppendersFrom(node, 0)
    {
      PrependStep(node, i, appenders);
      var a := AppenderFrom(At(node, i));
      if a.Thrown? {
        return Thrown;
      }
      if a.value.Some? {
        appenders := appenders + [a.value.value];
      }
      i := i + 1;
    }
    PrependNothing(appenders, Ok([]));
    r := Ok(appenders);
  }

  function DefineFrom(node: Node): Result<LogDefine> {
    match Sub(node, "name")
    case Thrown => Thrown
    case Ok(None) => Thrown  // "log config name is null"
    case Ok(Some(n)) =>
      match AsString(n)
      case Thrown => Thrown
      case Ok(name) =>
        match TextUnder(node, "level", "")
        case Thrown => Thrown
        case Ok(level) =>
          match TextUnder(node, "formatter", "")
          case Thrown => Thrown
          case Ok(formatter) =>
            match Sub(node, "appenders")
            case Thrown => Thrown
            case Ok(None) => Ok(LogDefine(name, LevelFrom(level), formatter, []))
            case Ok(Some(list)) =>
              match AppendersFrom(list, 0)
              case Thrown => Thrown
              case Ok(appenders) => Ok(LogDefine(name, LevelFrom(level), formatter, appenders))
  }

  // ---------------------------------------------------------------- the set

  // std::set::insert: nothing happens when the name is there already.
  function Insert(s: seq<LogDefine>, d: LogDefine): seq<LogDefine> {
    if s == [] || StringLess(d.name, s[0].name) then [d] + s
    else if s[0].name == d.name then s
    else [s[0]] + Insert(s[1..], d)
  }

  function SetFrom(node: Node, i: nat, s: seq<LogDefine>): Result<seq<LogDefine>>
    requires i <= Size(node)
    decreases Size(node) - i
  {
    if i == Size(node) then Ok(s)
    else
      match DefineFrom(At(node, i))
      case Thrown => Thrown
      case Ok(d) => SetFrom(node, i + 1, Insert(s, d))
  }

  /** The set cast, filling the set in a loop; the first definition of a name wins. */
  method CastSet(node: Node) returns (r: Result<seq<LogDefine>>)
    ensures r == SetFrom(node, 0, [])
  {
    var vec: seq<LogDefine> := [];
    var i := 0;
    while i < Size(node)
      invariant 0 <= i <= Size(node)
      invariant SetFrom(node, i, vec) == SetFrom(node, 0, [])
    {
      match DefineFrom(At(node, i)) {
        case Thrown => return Thrown;
        case Ok(d) => vec := Insert(vec, d);
      }
      i := i + 1;
    }
    r := Ok(vec);
  }

  // ---------------------------------------------------------------- what is read can be applied

  // A definition the listener never fails on: known kinds, and files only where one was given.
  predicate Sound(d: LogDefine) {
    forall a :: a in d.appenders ==> a.kind == 1 || (a.kind == 2 && a.file == "")
  }

  lemma {:induction false} AppendersSound(node: Node, i: nat)
    requires i <= Size(node) && AppendersFrom(node, i).Ok?
    ensures forall a :: a in AppendersFrom(node, i).value ==> a.kind == 1 || (a.kind == 2 && a.file == "")
    decreases Size(node) - i
  {
    if i < Size(node) {
      AppendersSound(node, i + 1);
    }
  }

  lemma DefineSound(node: Node)
    requires DefineFrom(node).Ok?
    ensures Sound(DefineFrom(node).value)
  {
    hide LevelFrom, AppendersFrom;
    var list := Sub(node, "appenders");
    if list.Ok? && list.value.Some? {
      AppendersSound(list.value.value, 0);
    }
  }

  lemma AscendingTail(s: seq<LogDefine>)
    requires s != [] && Ascending(s)
    ensures Ascending(s[1..]) && forall d :: d in s[1..] ==> StringLess(s[0].name, d.name)
  {
    assert forall j :: 0 <= j < |s[1..]| ==> s[1..][j] == s[j + 1];
  }

  lemma AscendingCons(d: LogDefine, s: seq<LogDefine>)
    requires Ascending(s) && forall e :: e in s ==> StringLess(d.name, e.name)
    ensures Ascending([d] + s)
  {
    assert forall j :: 0 <= j < |s| ==> s[j] in s && ([d] + s)[j + 1] == s[j];
  }

  lemma {:induction false} InsertKeeps(s: seq<LogDefine>, d: LogDefine)
    requires Ascending(s)
    ensures Ascending(Insert(s, d))
    ensures forall e :: e in Insert(s, d) <==> e in s || (e == d && Find(s, d.name).None?)
  {
    hide Ascending;
    FindNone(s, d.name);
    if s == [] {
      AscendingCons(d, s);
    } else {
      AscendingTail(s);
      assert s == [s[0]] + s[1..];
      StringLessTotal(d.name, s[0].name);
      if StringLess(d.name, s[0].name) {
        forall e | e in s ensures StringLess(d.name, e.name) && e.name != d.name {
          if e != s[0] {
            StringLessTransitive(d.name, s[0].name, e.name);
          }
          StringLessTotal(d.name, e.name);
        }
        AscendingCons(d, s);
      } else if s[0].name != d.name {
        InsertKeeps(s[1..], d);
        AscendingCons(s[0], Insert(s[1..], d));
      }
    }
  }

  // The first definition of that name from index i on.
  function FirstNamed(node: Node, i: nat, name: string): Option<LogDefine>
    requires i <= Size(node)
    decreases Size(node) - i
  {
    if i == Size(node) then None
    else match DefineFrom(At(node, i))
      case Ok(d) => if d.name == name then Some(d) else FirstNamed(node, i + 1, name)
      case Thrown => None
  }

  lemma {:induction false} SetFromIs(node: Node, i: nat, s: seq<LogDefine>)
    requires i <= Size(node) && Ascending(s) && SetFrom(node, i, s).Ok?
    requires forall d :: d in s ==> Sound(d)
    ensures var r := SetFrom(node, i, s).value;
      Ascending(r) && (forall d :: d in r ==> Sound(d)) &&
      forall n :: Find(r, n) == if Find(s, n).Some? then Find(s, n) else FirstNamed(node, i, n)
    decreases Size(node) - i
  {
    if i < Size(node) {
      var d := DefineFrom(At(node, i)).value;
      DefineSound(At(node, i));
      hide DefineFrom, Sound, Ascending;
      InsertKeeps(s, d);
      SetFromIs(node, i + 1, Insert(s, d));
      forall n ensures Find(Insert(s, d), n) == if Find(s, n).Some? then Find(s, n) else if d.name == n then Some(d) else None {
        FindInsert(s, d, n);
      }
    }
  }

  lemma {:induction false} FindInsert(s: seq<LogDefine>, d: LogDefine, n: string)
    requires Ascending(s)
    ensures Find(Insert(s, d), n) == if Find(s, n).Some? then Find(s, n) else if d.name == n then Some(d) else None
  {
    if s != [] {
      AscendingTail(s);
      StringLessTotal(d.name, s[0].name);
      if StringLess(d.name, s[0].name) {
        if n == d.name {
          NotBelow(s, n);
        }
      } else if s[0].name != d.name {
        FindInsert(s[1..], d, n);
      }
    }
  }

  // A name below the first is not in the list.
  lemma NotBelow(s: seq<LogDefine>, n: string)
    requires s != [] && Ascending(s) && StringLess(n, s[0].name)
    ensures Find(s, n).None?
  {
    AscendingTail(s);
    FindNone(s, n);
    forall d | d in s ensures d.name != n {
      assert s == [s[0]] + s[1..];
      if d != s[0] {
        StringLessTransitive(n, s[0].name, d.name);
      }
      StringLessTotal(n, d.name);
    }
  }

  /** Whatever the tree, a set that is read has unique names in order, each with the first
      definition given for it, and only appenders the listener can create. */
  lemma ReadSetsAreSafe(node: Node)
    requires SetFrom(node, 0, []).Ok?
    ensures var r := SetFrom(node, 0, []).value;
      Ascending(r) && AllAppliable(r) && (forall d :: d in r ==> Sound(d)) &&
      forall n :: Find(r, n) == FirstNamed(node, 0, n)
  {
    SetFromIs(node, 0, []);
  }

  // ---------------------------------------------------------------- writing definitions down

  // The YAML of a definition, in the layout the caster reads.
  function AppenderNode(a: LogAppenderDefine): Node {
    var kind := Entry("type", Scalar(if a.kind == 1 then "FileLogAppender" else "StdoutLogAppender"));
    var rest := [Entry("formatter", Scalar(a.formatter)), Entry("level", Scalar(LevelText(a.level)))];
    Map(if a.kind == 1 then [kind, Entry("file", Scalar(a.file))] + rest else [kind] + rest)
  }

  function AppenderNodes(s: seq<LogAppenderDefine>): (ns: seq<Node>)
    ensures |ns| == |s| && forall j :: 0 <= j < |s| ==> ns[j] == AppenderNode(s[j])
  {
    if s == [] then [] else [AppenderNode(s[0])] + AppenderNodes(s[1..])
  }

  function DefineNode(d: LogDefine): Node {
    Map([Entry("name", Scalar(d.name)), Entry("level", Scalar(LevelText(d.level))),
         Entry("formatter", Scalar(d.formatter)), Entry("appenders", Sequence(AppenderNodes(d.appenders)))])
  }

  function DefineNodes(s: seq<LogDefine>): (ns: seq<Node>)
    ensures |ns| == |s| && forall j :: 0 <= j < |s| ==> ns[j] == DefineNode(s[j])
  {
    if s == [] then [] else [DefineNode(s[0])] + DefineNodes(s[1..])
  }

  lemma LevelReadsBack(level: Level)
    ensures LevelFrom(LevelText(level)) == level
  {
  }

  // The first entry with a key is the one found.
  lemma {:induction false} ValueUnderAt(es: seq<Entry>, j: nat)
    requires j < |es| && forall k :: 0 <= k < j ==> es[k].key != es[j].key
    ensures ValueUnder(es, es[j].key) == Some(es[j].value)
  {
    if j > 0 {
      ValueUnderAt(es[1..], j - 1);
    }
  }

  lemma AppenderFieldsUnder(a: LogAppenderDefine)
    ensures var node := AppenderNode(a);
      Sub(node, "type") == Ok(Some(Scalar(if a.kind == 1 then "FileLogAppender" else "StdoutLogAppender"))) &&
      (a.kind == 1 ==> Sub(node, "file") == Ok(Some(Scalar(a.file)))) &&
      TextUnder(node, "formatter", "") == Ok(a.formatter) && TextUnder(node, "level", "") == Ok(LevelText(a.level))
  {
    hide ValueUnder, LevelText;
    var es := AppenderNode(a).entries;
    ValueUnderAt(es, 0);
    ValueUnderAt(es, 1);
    ValueUnderAt(es, 2);
    if a.kind == 1 {
      ValueUnderAt(es, 3);
    }
  }

  lemma AppenderReadsBack(a: LogAppenderDefine)
    requires a.kind == 1 || (a.kind == 2 && a.file == "")
    ensures AppenderFrom(AppenderNode(a)) == Ok(Some(a))
  {
    AppenderFieldsUnder(a);
    LevelReadsBack(a.level);
    hide Sub, TextUnder, AppenderNode, LevelFrom, LevelText;
  }

  lemma AppendersReadStep(s: seq<LogAppenderDefine>, i: nat, rest: seq<LogAppenderDefine>)
    requires i < |s| && (s[i].kind == 1 || (s[i].kind == 2 && s[i].file == ""))
    requires AppendersFrom(Sequence(AppenderNodes(s)), i + 1) == Ok(rest)
    ensures AppendersFrom(Sequence(AppenderNodes(s)), i) == Ok([s[i]] + rest)
  {
    hide AppenderFrom, AppenderNode;
    AppenderReadsBack(s[i]);
    assert At(Sequence(AppenderNodes(s)), i) == AppenderNode(s[i]);
  }

  lemma {:induction false} AppendersReadBack(s: seq<LogAppenderDefine>, i: nat)
    requires i <= |s| && forall a :: a in s ==> a.kind == 1 || (a.kind == 2 && a.file == "")
    ensures AppendersFrom(Sequence(AppenderNodes(s)), i) == Ok(s[i..])
    decreases |s| - i
  {
    hide AppenderNode, AppenderFrom;
    if i == |s| {
      assert s[i..] == [];
      assert AppendersFrom(Sequence(AppenderNodes(s)), i) == Ok([]);
    } else {
      hide AppendersFrom;
      AppendersReadBack(s, i + 1);
      AppendersReadStep(s, i, s[i + 1..]);
      assert s[i..] == [s[i]] + s[i + 1..];
    }
  }

  lemma DefineFieldsUnder(d: LogDefine)
    ensures var node := DefineNode(d);
      Sub(node, "name") == Ok(Some(Scalar(d.name))) && Sub(node, "appenders") == Ok(Some(Sequence(AppenderNodes(d.appenders)))) &&
      TextUnder(node, "formatter", "") == Ok(d.formatter) && TextUnder(node, "level", "") == Ok(LevelText(d.level))
  {
    hide ValueUnder, LevelText, AppenderNodes;
    var es := DefineNode(d).entries;
    ValueUnderAt(es, 0);
    ValueUnderAt(es, 1);
    ValueUnderAt(es, 2);
    ValueUnderAt(es, 3);
  }

  /** A definition written down in the caster's layout is read back iff it is sound: the
      caster drops or confuses no field, and unsound definitions cannot be written. */
  lemma DefineReadsBackIff(d: LogDefine)
    ensures DefineFrom(DefineNode(d)) == Ok(d) <==> Sound(d)
  {
    if DefineFrom(DefineNode(d)) == Ok(d) {
      DefineSound(DefineNode(d));
    }
    if Sound(d) {
      DefineFieldsUnder(d);
      LevelReadsBack(d.level);
      AppendersReadBack(d.appenders, 0);
      assert d.appenders[0..] == d.appenders;
      hide Sub, TextUnder, DefineNode, LevelFrom, LevelText, AppendersFrom, AppenderNodes;
    }
  }

  lemma {:induction false} InsertLast(s: seq<LogDefine>, d: LogDefine)
    requires forall e :: e in s ==> StringLess(e.name, d.name)
    ensures Insert(s, d) == s + [d]
  {
    if s != [] {
      StringLessTotal(s[0].name, d.name);
      InsertLast(s[1..], d);
    }
  }

  lemma SetReadsStep(s: DefineSet, i: nat)
    requires i < |s| && Sound(s[i])
    ensures SetFrom(Sequence(DefineNodes(s)), i, s[..i]) == SetFrom(Sequence(DefineNodes(s)), i + 1, s[..i + 1])
  {
    DefineReadsBackIff(s[i]);
    hide DefineFrom, DefineNode, Insert, Sound;
    InsertLast(s[..i], s[i]);
    assert s[..i] + [s[i]] == s[..i + 1];
    assert At(Sequence(DefineNodes(s)), i) == DefineNode(s[i]);
  }

  lemma {:induction false} SetReadsBackFrom(s: DefineSet, i: nat)
    requires i <= |s| && forall d :: d in s ==> Sound(d)
    ensures SetFrom(Sequence(DefineNodes(s)), i, s[..i]) == Ok(s)
    decreases |s| - i
  {
    if i == |s| {
      assert s[..i] == s;
    } else {
      hide SetFrom, Sound;
      SetReadsStep(s, i);
      SetReadsBackFrom(s, i + 1);
    }
  }

  /** Every sound set of definitions, and no other, is what some list of YAML definitions
      reads as. */
  lemma SetReadsBackIff(s: DefineSet)
    ensures SetFrom(Sequence(DefineNodes(s)), 0, []) == Ok(s) <==> forall d :: d in s ==> Sound(d)
  {
    if forall d :: d in s ==> Sound(d) {
      SetReadsBackFrom(s, 0);
      assert s[..0] == [];
    }
    if SetFrom(Sequence(DefineNodes(s)), 0, []) == Ok(s) {
      ReadSetsAreSafe(Sequence(DefineNodes(s)));
    }
  }
}
