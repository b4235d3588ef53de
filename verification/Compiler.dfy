/** From pieces to the token triples of LogFormatter::init, and from tokens to the items
    that LogFormatter::format runs. */
module Compiler {
  import opened Basics
  import opened Pattern

  // The (str, fmt, type) triples: type 0 is literal text, type 1 a directive.
  datatype Token = Lit(text: string) | Dir(name: string, fmt: string)

  // vec, nstr, and whether some directive was left unclosed.
  datatype Scan = Scan(tokens: seq<Token>, pending: string, broken: bool)

  const PARSE_ERROR := "<parse_error>"
  const START := Scan([], "", false)

  function Flush(pending: string): seq<Token> {
    if pending == "" then [] else [Lit(pending)]
  }

  function ReadDirective(st: Scan, t: Token): Scan {
    Scan(st.tokens + Flush(st.pending) + [t], "", st.broken)
  }

  // After an unclosed '{' the marker comes before the pending text, which stays pending.
  function Read(st: Scan, p: Piece): Scan {
    match p
    case Plain(c) => st.(pending := st.pending + [c])
    case Percent => st.(pending := st.pending + "%")
    case Bare(name) => ReadDirective(st, Dir(name, ""))
    case Braced(name, fmt) => ReadDirective(st, Dir(name, fmt))
    case Unclosed => Scan(st.tokens + [Lit(PARSE_ERROR)] + Flush(st.pending), st.pending, true)
  }

  function ReadAll(st: Scan, ps: seq<Piece>): Scan
    decreases ps
  {
    if ps == [] then st else ReadAll(Read(st, ps[0]), ps[1..])
  }

  // Text still pending at the end of the pattern is never flushed.
  function Compile(pattern: string): Scan {
    ReadAll(START, Lex(pattern))
  }

  // ---------------------------------------------------------------- items

  datatype Item =
    | Str(text: string) | Message | LevelName | Elapse | LoggerName | ThreadId | NewLine
    | DateTime(fmt: string) | Line | FiberId | Tab | FileName

  const DEFAULT_TIME_FORMAT := "%Y-%m-%d %H:%M:%S"

  // The item table s_format_items.
  function TableItem(name: string, fmt: string): Option<Item> {
    if name == "m" then Some(Message)
    else if name == "p" then Some(LevelName)
    else if name == "r" then Some(Elapse)
    else if name == "c" then Some(LoggerName)
    else if name == "t" then Some(ThreadId)
    else if name == "n" then Some(NewLine)
    else if name == "d" then Some(DateTime(if fmt == "" then DEFAULT_TIME_FORMAT else fmt))
    else if name == "l" then Some(Line)
    else if name == "F" then Some(FiberId)
    else if name == "T" then Some(Tab)
    else if name == "f" then Some(FileName)
    else None
  }

  predicate Known(name: string) {
    name in {"m", "p", "r", "c", "t", "n", "d", "l", "F", "T", "f"}
  }

  function ItemFor(t: Token): Item {
    match t
    case Lit(text) => Str(text)
    case Dir(name, fmt) =>
      match TableItem(name, fmt)
      case Some(item) => item
      case None => Str("<<error_format %" + name + ">>")
  }

  function ItemsOf(ts: seq<Token>): (items: seq<Item>)
    ensures |items| == |ts| && forall j :: 0 <= j < |ts| ==> items[j] == ItemFor(ts[j])
  {
    if ts == [] then [] else [ItemFor(ts[0])] + ItemsOf(ts[1..])
  }

  predicate HasUnknown(ts: seq<Token>) {
    exists j :: 0 <= j < |ts| && ts[j].Dir? && !Known(ts[j].name)
  }

  // What m_error is set to.
  predicate Failed(st: Scan) {
    st.broken || HasUnknown(st.tokens)
  }

  // ---------------------------------------------------------------- rendering

  // LogLevel::Level: UNKNOW, DEBUG, INFO, WARN, ERROR, FATAL.
  type Level = n: int | 0 <= n <= 5

  // uint64_t
  const TWO_64 := 0x1_0000_0000_0000_0000
  type Time = n: int | 0 <= n < TWO_64

  datatype Event = Event(file: string, line: int, elapse: nat, threadId: nat, fiberId: nat,
                         time: Time, content: string)

  // What an item may look at; strftime stands for the C library's time formatting.
  datatype Context = Context(logger: string, level: Level, event: Event, strftime: (string, Time) -> string)

  function LevelText(level: Level): string {
    match level
    case 1 => "DEBUG"
    case 2 => "INFO"
    case 3 => "WARN"
    case 4 => "ERROR"
    case 5 => "FATAL"
    case _ => "UNKNOW"
  }

  function Digits(n: nat): string {
    if n < 10 then [('0' as int + n) as char] else Digits(n / 10) + [('0' as int + n % 10) as char]
  }

  function Decimal(n: int): string {
    if n < 0 then "-" + Digits(-n) else Digits(n)
  }

  function Render(item: Item, c: Context): string {
    match item
    case Str(text) => text
    case Message => c.event.content
    case LevelName => LevelText(c.level)
    case Elapse => Decimal(c.event.elapse)
    case LoggerName => c.logger
    case ThreadId => Decimal(c.event.threadId)
    case NewLine => "\n"
    case DateTime(fmt) => c.strftime(fmt, c.event.time)
    case Line => Decimal(c.event.line)
    case FiberId => Decimal(c.event.fiberId)
    case Tab => "\t"
    case FileName => c.event.file
  }

  function RenderAll(items: seq<Item>, c: Context): string {
    if items == [] then "" else Render(items[0], c) + RenderAll(items[1..], c)
  }

  // What format produces for a freshly compiled pattern.
  function Output(pattern: string, c: Context): string {
    RenderAll(ItemsOf(Compile(pattern).tokens), c)
  }

  // ---------------------------------------------------------------- scanning in steps

  lemma {:induction false} ReadAllConcat(st: Scan, ps: seq<Piece>, qs: seq<Piece>)
    ensures ReadAll(st, ps + qs) == ReadAll(ReadAll(st, ps), qs)
    decreases ps
  {
    if ps == [] {
      assert ps + qs == qs;
    } else {
      hide Read;
      assert (ps + qs)[1..] == ps[1..] + qs;
      ReadAllConcat(Read(st, ps[0]), ps[1..], qs);
    }
  }

  // ---------------------------------------------------------------- when compilation fails

  ghost predicate UnknownPiece(p: Piece) {
    (p.Bare? || p.Braced?) && !Known(p.name)
  }

  lemma {:induction false} FailedAfter(st: Scan, ps: seq<Piece>)
    ensures Failed(ReadAll(st, ps)) <==> Failed(st) || Unclosed in ps || exists j :: 0 <= j < |ps| && UnknownPiece(ps[j])
    decreases ps
  {
    if ps != [] {
      FailedStep(st, ps[0]);
      hide Read, Failed;
      FailedAfter(Read(st, ps[0]), ps[1..]);
      if j :| 0 <= j < |ps| && UnknownPiece(ps[j]) {
        assert j > 0 ==> UnknownPiece(ps[1..][j - 1]);
      }
    }
  }

  lemma FailedStep(st: Scan, p: Piece)
    ensures Failed(Read(st, p)) <==> Failed(st) || p == Unclosed || UnknownPiece(p)
  {
    hide Known;
    var ts := Read(st, p).tokens;
    assert st.tokens <= ts;
    if p.Bare? || p.Braced? {
      assert ts[|ts| - 1] == Dir(p.name, if p.Bare? then "" else p.fmt);
    }
    if j :| 0 <= j < |st.tokens| && st.tokens[j].Dir? && !Known(st.tokens[j].name) {
      assert ts[j] == st.tokens[j];
    }
  }

  /** m_error ends up true exactly when the pattern leaves some brace unclosed or the
      scanner reads a directive whose name is not in the item table. */
  lemma FailedIff(pattern: string)
    ensures Failed(Compile(pattern)) <==>
      (exists i :: DanglesAt(pattern, i)) ||
      exists j :: 0 <= j < |Lex(pattern)| && UnknownPiece(Lex(pattern)[j])
  {
    FailedAfter(START, Lex(pattern));
    UnclosedIff(pattern);
  }
}
