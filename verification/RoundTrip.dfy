/** Printing token lists and reading them back, and running a compiled pattern against
    reading the pattern directly. */
module RoundTrip {
  import opened Basics
  import opened Pattern
  import opened Compiler
  import opened Places

  function PrintToken(t: Token): string {
    match t
    case Lit(text) => text
    case Dir(name, fmt) => if fmt == "" then "%" + name else "%" + name + "{" + fmt + "}"
  }

  function Print(ts: seq<Token>): string {
    if ts == [] then "" else PrintToken(ts[0]) + Print(ts[1..])
  }

  // A directive without a format may be followed by t.
  predicate MayFollowBare(name: string, t: Token) {
    match t
    case Dir(_, _) => name != ""
    case Lit(text) => text != "" && !IsAlpha(text[0]) && text[0] != '{' && (name == "" ==> text[0] != '%')
  }

  // Nothing but '%' comes after a '%'.
  predicate PercentsLast(text: string) {
    forall j :: 0 <= j < |text| - 1 && text[j] == '%' ==> text[j + 1] == '%'
  }

  // A literal is non-empty and a directive follows it.
  predicate StructuredHead(ts: seq<Token>)
    requires ts != []
  {
    ts[0].Lit? ==> ts[0].text != "" && |ts| > 1 && ts[1].Dir?
  }

  predicate Structured(ts: seq<Token>) {
    ts == [] || (StructuredHead(ts) && Structured(ts[1..]))
  }

  predicate SpellableHead(ts: seq<Token>)
    requires ts != []
  {
    StructuredHead(ts) &&
    match ts[0]
    case Lit(text) => PercentsLast(text)
    case Dir(name, fmt) =>
      AllAlpha(name) && '}' !in fmt && (fmt == "" && |ts| > 1 ==> MayFollowBare(name, ts[1]))
  }

  /** Token lists a pattern can spell: literals are non-empty, '%' only at their end, and
      followed by a directive; names are alphabetic; formats are free of '}'; and a
      directive without a format does not run into what follows it. */
  predicate Spellable(ts: seq<Token>) {
    ts == [] || (SpellableHead(ts) && Spellable(ts[1..]))
  }

  function Plains(text: string): seq<Piece> {
    if text == "" then [] else [if text[0] == '%' then Percent else Plain(text[0])] + Plains(text[1..])
  }

  function PiecesOf(t: Token): seq<Piece> {
    match t
    case Lit(text) => Plains(text)
    case Dir(name, fmt) => [if fmt == "" then Bare(name) else Braced(name, fmt)]
  }

  function AllPieces(ts: seq<Token>): seq<Piece> {
    if ts == [] then [] else PiecesOf(ts[0]) + AllPieces(ts[1..])
  }

  lemma PlainsCons(text: string, ps: seq<Piece>)
    requires text != ""
    ensures Plains(text) + ps == Plains([text[0]]) + (Plains(text[1..]) + ps)
    ensures Plains([text[0]]) == [if text[0] == '%' then Percent else Plain(text[0])]
  {
    assert [text[0]][1..] == "" && Plains("") == [];
  }

  lemma {:induction false} PlainsText(text: string, ps: seq<Piece>)
    ensures Text(Plains(text) + ps) == text + Text(ps)
  {
    if text == "" {
      assert Plains(text) + ps == ps;
      assert "" + Text(ps) == Text(ps);
    } else {
      PlainsText(text[1..], ps);
      PlainsCons(text, ps);
      var p := if text[0] == '%' then Percent else Plain(text[0]);
      TextCons(p, Plains(text[1..]) + ps);
      assert Source(p) == [text[0]];
      hide Text, Plains;
      Assoc([text[0]], text[1..], Text(ps));
      assert text == [text[0]] + text[1..];
    }
  }

  // Characters before a directive are read as they stand iff '%' is only followed by '%'.
  lemma {:induction false} PlainsWellFormedIff(text: string, ps: seq<Piece>)
    requires Text(ps) != "" && Text(ps)[0] == '%'
    ensures WellFormed(Plains(text) + ps) <==> PercentsLast(text) && WellFormed(ps)
  {
    hide Text, Dangling;
    if text == "" {
      assert Plains(text) + ps == ps;
    } else {
      PlainsCons(text, ps);
      PlainsText(text[1..], ps);
      PlainsWellFormedIff(text[1..], ps);
      PercentsLastCons(text);
      ConsWellFormed(Plains([text[0]])[0], Plains(text[1..]) + ps);
      hide Plains, WellFormed, PercentsLast;
      assert (text[1..] + Text(ps))[0] == if |text| > 1 then text[1] else '%';
    }
  }

  lemma ConsWellFormed(p: Piece, ps: seq<Piece>)
    ensures WellFormed([p] + ps) <==> Fits(p, Text(ps)) && WellFormed(ps)
  {
    hide Fits, Text;
    assert ([p] + ps)[1..] == ps;
  }

  lemma PercentsLastCons(text: string)
    requires text != ""
    ensures PercentsLast(text) <==> (text[0] == '%' && |text| > 1 ==> text[1] == '%') && PercentsLast(text[1..])
  {
    assert forall j :: 0 < j < |text| ==> text[j] == text[1..][j - 1];
  }

  // Reading Plains(text) adds text to what is pending.
  lemma PlainRead(text: string, ps: seq<Piece>, st: Scan)
    requires text != ""
    ensures ReadAll(st, Plains(text) + ps) == ReadAll(st.(pending := st.pending + [text[0]]), Plains(text[1..]) + ps)
  {
    PlainsCons(text, ps);
    hide Plains;
  }

  lemma Peel<T>(a: seq<T>, ts: seq<T>)
    requires ts != []
    ensures a + [ts[0]] + ts[1..] == a + ts
  {
  }

  lemma {:induction false} PlainsRead(text: string, ps: seq<Piece>, st: Scan)
    ensures ReadAll(st, Plains(text) + ps) == ReadAll(st.(pending := st.pending + text), ps)
    decreases text
  {
    if text == "" {
      assert Plains(text) + ps == ps;
      assert st.pending + text == st.pending;
    } else {
      PlainRead(text, ps, st);
      hide ReadAll, Plains;
      PlainsRead(text[1..], ps, st.(pending := st.pending + [text[0]]));
      Peel(st.pending, text);
    }
  }

  lemma {:induction false} SpelledText(ts: seq<Token>)
    ensures Text(AllPieces(ts)) == Print(ts)
  {
    if ts != [] {
      var rest := AllPieces(ts[1..]);
      SpelledText(ts[1..]);
      match ts[0]
      case Lit(text) => PlainsText(text, rest);
      case Dir(name, fmt) => assert AllPieces(ts)[1..] == rest;
    }
  }

  lemma PrintHead(ts: seq<Token>)
    requires ts != [] && StructuredHead(ts)
    ensures Print(ts) != "" && Print(ts)[0] == match ts[0] case Lit(text) => text[0] case Dir(_, _) => '%'
  {
    hide Structured;
    assert Print(ts) == PrintToken(ts[0]) + Print(ts[1..]);
  }

  // The head directive is read back iff it is spellable.
  lemma DirFitsIff(ts: seq<Token>)
    requires Structured(ts) && ts != [] && ts[0].Dir?
    ensures Fits(PiecesOf(ts[0])[0], Print(ts[1..])) <==> SpellableHead(ts)
  {
    if |ts| > 1 {
      PrintHead(ts[1..]);
    }
    hide Print;
  }

  lemma {:induction false} SpelledWellFormedIff(ts: seq<Token>)
    requires Structured(ts)
    ensures WellFormed(AllPieces(ts)) <==> Spellable(ts)
  {
    if ts != [] {
      SpelledWellFormedIff(ts[1..]);
      SpelledText(ts[1..]);
      if ts[0].Lit? {
        PrintHead(ts[1..]);
        PlainsWellFormedIff(ts[0].text, AllPieces(ts[1..]));
      } else {
        DirFitsIff(ts);
        ConsWellFormed(PiecesOf(ts[0])[0], AllPieces(ts[1..]));
        hide SpellableHead, WellFormed, Fits;
        assert AllPieces(ts) == [PiecesOf(ts[0])[0]] + AllPieces(ts[1..]);
      }
    }
  }

  lemma {:induction false} SpellableStructured(ts: seq<Token>)
    requires Spellable(ts)
    ensures Structured(ts)
  {
    if ts != [] {
      SpellableStructured(ts[1..]);
    }
  }

  lemma LiteralRead(ts: seq<Token>, st: Scan)
    requires ts != [] && ts[0].Lit? && st.pending == ""
    ensures ReadAll(st, AllPieces(ts)) == ReadAll(st.(pending := ts[0].text), AllPieces(ts[1..]))
  {
    PlainsRead(ts[0].text, AllPieces(ts[1..]), st);
    assert "" + ts[0].text == ts[0].text;
  }

  lemma DirectiveRead(ts: seq<Token>, st: Scan)
    requires ts != [] && ts[0].Dir?
    ensures ReadAll(st, AllPieces(ts)) == ReadAll(ReadDirective(st, ts[0]), AllPieces(ts[1..]))
  {
    assert AllPieces(ts)[1..] == AllPieces(ts[1..]);
  }

  lemma {:induction false} SpelledRead(ts: seq<Token>, st: Scan)
    requires Structured(ts)
    requires st.pending != "" ==> ts != [] && ts[0].Dir?
    ensures ReadAll(st, AllPieces(ts)) == Scan(st.tokens + Flush(st.pending) + ts, "", st.broken)
    decreases ts
  {
    if ts == [] {
      assert st.tokens + [] + ts == st.tokens;
    } else {
      hide AllPieces, ReadAll;
      if ts[0].Lit? {
        LiteralRead(ts, st);
        SpelledRead(ts[1..], st.(pending := ts[0].text));
        Peel(st.tokens, ts);
        assert st.tokens + [] == st.tokens;
      } else {
        DirectiveRead(ts, st);
        SpelledRead(ts[1..], ReadDirective(st, ts[0]));
        Peel(st.tokens + Flush(st.pending), ts);
        assert ReadDirective(st, ts[0]).tokens + [] == ReadDirective(st, ts[0]).tokens;
      }
    }
  }

  // ---------------------------------------------------------------- printing what was read

  function EmptyFormats(ps: seq<Piece>): nat {
    if ps == [] then 0 else (if EmptyFormat(ps[0]) then 1 else 0) + EmptyFormats(ps[1..])
  }

  lemma {:induction false} NoEmptyFormats(ps: seq<Piece>)
    ensures EmptyFormats(ps) == 0 <==> forall p :: p in ps ==> !EmptyFormat(p)
  {
    if ps != [] {
      NoEmptyFormats(ps[1..]);
      assert ps == [ps[0]] + ps[1..];
    }
  }

  lemma {:induction false} PrintConcat(ts: seq<Token>, us: seq<Token>)
    ensures Print(ts + us) == Print(ts) + Print(us)
  {
    if ts == [] {
      assert ts + us == us;
    } else {
      assert (ts + us)[1..] == ts[1..] + us;
      PrintConcat(ts[1..], us);
      Assoc(PrintToken(ts[0]), Print(ts[1..]), Print(us));
    }
  }

  lemma PrintOne(t: Token)
    ensures Print([t]) == PrintToken(t)
  {
    assert [t][1..] == [];
  }

  lemma PrintFlush(pending: string)
    ensures Print(Flush(pending)) == pending
  {
    if pending != "" {
      PrintOne(Lit(pending));
    }
  }

  lemma PrintDirective(st: Scan, t: Token)
    ensures Print(ReadDirective(st, t).tokens) == Print(st.tokens) + st.pending + PrintToken(t)
  {
    PrintConcat(st.tokens + Flush(st.pending), [t]);
    PrintConcat(st.tokens, Flush(st.pending));
    PrintOne(t);
    PrintFlush(st.pending);
  }

  // What one piece adds to the printed tokens and the pending text.
  lemma PrintRead(st: Scan, p: Piece)
    requires p != Unclosed
    ensures var added := if EmptyFormat(p) then "%" + p.name else Source(p);
      Print(Read(st, p).tokens) + Read(st, p).pending == Print(st.tokens) + st.pending + added
  {
    hide Print;
    if p.Bare? || p.Braced? {
      PrintDirective(st, Dir(p.name, if p.Bare? then "" else p.fmt));
    }
  }

  lemma {:induction false} PrintReadAll(st: Scan, ps: seq<Piece>)
    requires Unclosed !in ps
    ensures var end := ReadAll(st, ps);
      |Print(end.tokens) + end.pending| + 2 * EmptyFormats(ps) == |Print(st.tokens) + st.pending + Text(ps)| &&
      (EmptyFormats(ps) == 0 ==> Print(end.tokens) + end.pending == Print(st.tokens) + st.pending + Text(ps))
    decreases ps
  {
    if ps != [] {
      PrintRead(st, ps[0]);
      hide Read, Print;
      PrintReadAll(Read(st, ps[0]), ps[1..]);
      Assoc(Print(st.tokens) + st.pending, Source(ps[0]), Text(ps[1..]));
    }
  }

  /** The printer inverts the parser: for every pattern without an unclosed brace, the
      emitted tokens, printed in order, followed by the text still pending, spell the
      pattern again iff the text has no "%name{}" outside closed formats. */
  lemma PrinterInvertsParserIff(pattern: string)
    requires forall i :: !DanglesAt(pattern, i)
    ensures Print(Compile(pattern).tokens) + Compile(pattern).pending == pattern
      <==> forall i :: !EmptyAt(pattern, i)
  {
    hide EmptyAt, EmptyFormat, DanglesAt;
    UnclosedIff(pattern);
    EmptyFormatIff(pattern);
    PrintReadAll(START, Lex(pattern));
    NoEmptyFormats(Lex(pattern));
    LexTiles(pattern);
    assert Print(START.tokens) + START.pending + pattern == pattern;
  }

  // ---------------------------------------------------------------- which token lists round-trip

  lemma {:induction false} StructuredConcat(ts: seq<Token>, us: seq<Token>)
    requires Structured(ts) && Structured(us)
    ensures Structured(ts + us)
  {
    if ts == [] {
      assert ts + us == us;
    } else {
      StructuredConcat(ts[1..], us);
      assert (ts + us)[1..] == ts[1..] + us;
    }
  }

  // Without unclosed braces every literal is flushed right before a directive.
  lemma {:induction false} ReadStructured(st: Scan, ps: seq<Piece>)
    requires Unclosed !in ps && Structured(st.tokens)
    ensures Structured(ReadAll(st, ps).tokens)
    ensures ReadAll(st, ps).broken == st.broken
    decreases ps
  {
    if ps != [] {
      var p := ps[0];
      if p.Bare? || p.Braced? {
        FlushStructured(st, Dir(p.name, if p.Bare? then "" else p.fmt));
      }
      ReadStructured(Read(st, p), ps[1..]);
    }
  }

  lemma FlushStructured(st: Scan, t: Token)
    requires Structured(st.tokens) && t.Dir?
    ensures Structured(ReadDirective(st, t).tokens)
  {
    var us := Flush(st.pending) + [t];
    assert us[1..] == if st.pending == "" then [] else [t];
    assert [t][1..] == [];
    assert Structured(us);
    StructuredConcat(st.tokens, us);
    Assoc(st.tokens, Flush(st.pending), [t]);
  }

  lemma {:induction false} ReadBroken(st: Scan, ps: seq<Piece>)
    ensures ReadAll(st, ps).broken <==> st.broken || Unclosed in ps
    decreases ps
  {
    if ps != [] {
      ReadBroken(Read(st, ps[0]), ps[1..]);
    }
  }

  lemma {:induction false} AllPiecesConcat(ts: seq<Token>, us: seq<Token>)
    ensures AllPieces(ts + us) == AllPieces(ts) + AllPieces(us)
  {
    if ts == [] {
      assert ts + us == us;
    } else {
      hide PiecesOf;
      assert (ts + us)[1..] == ts[1..] + us;
      AllPiecesConcat(ts[1..], us);
      Assoc(PiecesOf(ts[0]), AllPieces(ts[1..]), AllPieces(us));
    }
  }

  lemma {:induction false} PlainsSnoc(text: string, c: char)
    ensures Plains(text + [c]) == Plains(text) + Plains([c])
  {
    if text == "" {
      assert text + [c] == [c];
    } else {
      assert (text + [c])[1..] == text[1..] + [c];
      PlainsSnoc(text[1..], c);
    }
  }

  function PiecesSoFar(st: Scan): seq<Piece> {
    AllPieces(st.tokens) + Plains(st.pending)
  }

  lemma AllPiecesFlush(pending: string)
    ensures AllPieces(Flush(pending)) == Plains(pending)
  {
    if pending != "" {
      assert Flush(pending)[1..] == [];
      assert AllPieces([]) == [];
    }
  }

  lemma AllPiecesOne(t: Token)
    ensures AllPieces([t]) == PiecesOf(t)
  {
    hide PiecesOf;
    assert [t][1..] == [] && AllPieces([]) == [];
  }

  lemma DirectivePieces(st: Scan, t: Token)
    requires t.Dir?
    ensures PiecesSoFar(ReadDirective(st, t)) == PiecesSoFar(st) + PiecesOf(t)
  {
    AllPiecesConcat(st.tokens + Flush(st.pending), [t]);
    AllPiecesConcat(st.tokens, Flush(st.pending));
    AllPiecesFlush(st.pending);
    AllPiecesOne(t);
    assert Plains("") == [];
  }

  // A piece can be told from the token or the text it becomes.
  lemma PiecesRead(st: Scan, p: Piece)
    requires p != Unclosed && p != Plain('%') && !EmptyFormat(p)
    ensures PiecesSoFar(Read(st, p)) == PiecesSoFar(st) + [p]
  {
    if p.Bare? || p.Braced? {
      DirectivePieces(st, Dir(p.name, if p.Bare? then "" else p.fmt));
    } else {
      var c := if p.Plain? then p.c else '%';
      PlainsSnoc(st.pending, c);
      PlainsCons([c], []);
      Assoc(AllPieces(st.tokens), Plains(st.pending), [p]);
    }
  }

  lemma {:induction false} PiecesReadAll(st: Scan, ps: seq<Piece>)
    requires Unclosed !in ps && Plain('%') !in ps && forall p :: p in ps ==> !EmptyFormat(p)
    ensures PiecesSoFar(ReadAll(st, ps)) == PiecesSoFar(st) + ps
    decreases ps
  {
    if ps != [] {
      PiecesRead(st, ps[0]);
      hide PiecesSoFar, Read;
      PiecesReadAll(Read(st, ps[0]), ps[1..]);
      Peel(PiecesSoFar(st), ps);
    }
  }

  lemma {:induction false} NoPlainPercent(ps: seq<Piece>)
    requires WellFormed(ps)
    ensures Plain('%') !in ps
  {
    hide Text, Dangling;
    if ps != [] {
      NoPlainPercent(ps[1..]);
    }
  }

  // What comes back from the printed text of a token list was spelled by the list's own pieces.
  lemma RoundTripPieces(ts: seq<Token>)
    requires Compile(Print(ts)) == Scan(ts, "", false)
    ensures Structured(ts) && AllPieces(ts) == Lex(Print(ts))
  {
    var ps := Lex(Print(ts));
    ReadBroken(START, ps);
    ReadStructured(START, ps);
    PrintReadAll(START, ps);
    LexTiles(Print(ts));
    NoEmptyFormats(ps);
    LexWellFormed(Print(ts));
    NoPlainPercent(ps);
    PiecesReadAll(START, ps);
    hide Lex, AllPieces;
    assert PiecesSoFar(Scan(ts, "", false)) == AllPieces(ts);
    assert PiecesSoFar(START) + ps == ps by {
      assert AllPieces([]) == [] by {
        AllPiecesFlush("");
      }
    }
  }

  /** The parser inverts the printer, and on no more lists than these: the printed text of
      a token list compiles to exactly that list, with nothing pending, iff it is spellable. */
  lemma ParserInvertsPrinterIff(ts: seq<Token>)
    ensures Compile(Print(ts)) == Scan(ts, "", false) <==> Spellable(ts)
    ensures Spellable(ts) ==> (Failed(Compile(Print(ts))) <==> HasUnknown(ts))
  {
    if Spellable(ts) {
      SpellableStructured(ts);
      SpelledText(ts);
      SpelledWellFormedIff(ts);
      LexInvertsText(AllPieces(ts));
      SpelledRead(ts, START);
      assert [] + [] + ts == ts;
    }
    if Compile(Print(ts)) == Scan(ts, "", false) {
      RoundTripPieces(ts);
      LexWellFormed(Print(ts));
      SpelledWellFormedIff(ts);
    }
  }

  // ---------------------------------------------------------------- direct interpretation

  // What one piece means: characters stand for themselves, a directive for its item's text.
  function Meaning(p: Piece, c: Context): string {
    match p
    case Plain(ch) => [ch]
    case Percent => "%"
    case Bare(name) => Render(ItemFor(Dir(name, "")), c)
    case Braced(name, fmt) => Render(ItemFor(Dir(name, fmt)), c)
    case Unclosed => PARSE_ERROR
  }

  // Reads the pattern once, writing as it goes: no tokens, no items, no pending text.
  function Direct(pattern: string, c: Context): string
    decreases |pattern|
  {
    if pattern == "" then ""
    else
      var p := First(pattern);
      Meaning(p, c) + Direct(pattern[|Source(p)|..], c)
  }

  function TokenOutput(ts: seq<Token>, c: Context): string {
    RenderAll(ItemsOf(ts), c)
  }

  lemma OutputCons(t: Token, ts: seq<Token>, c: Context)
    ensures TokenOutput([t] + ts, c) == Render(ItemFor(t), c) + TokenOutput(ts, c)
  {
    hide Render, ItemFor;
    assert ([t] + ts)[1..] == ts;
    var items := [ItemFor(t)] + ItemsOf(ts);
    assert ItemsOf([t] + ts) == items;
    assert items[1..] == ItemsOf(ts);
  }

  lemma {:induction false} OutputConcat(ts: seq<Token>, us: seq<Token>, c: Context)
    ensures TokenOutput(ts + us, c) == TokenOutput(ts, c) + TokenOutput(us, c)
  {
    hide Render, ItemFor;
    if ts == [] {
      assert ts + us == us;
    } else {
      assert (ts + us)[1..] == ts[1..] + us;
      OutputConcat(ts[1..], us, c);
      OutputCons(ts[0], ts[1..], c);
      OutputCons(ts[0], ts[1..] + us, c);
      assert ts == [ts[0]] + ts[1..] && ts + us == [ts[0]] + (ts[1..] + us);
      Assoc(Render(ItemFor(ts[0]), c), TokenOutput(ts[1..], c), TokenOutput(us, c));
    }
  }

  lemma OutputOne(t: Token, c: Context)
    ensures TokenOutput([t], c) == Render(ItemFor(t), c)
  {
    var items := [ItemFor(t)];
    assert ItemsOf([t]) == items;
    hide Render, ItemFor;
    assert items[1..] == [];
    assert RenderAll(items, c) == Render(items[0], c) + RenderAll(items[1..], c);
    assert RenderAll(items[1..], c) == "";
  }

  lemma OutputFlush(pending: string, c: Context)
    ensures TokenOutput(Flush(pending), c) == pending
  {
    if pending != "" {
      OutputOne(Lit(pending), c);
    }
  }

  lemma OutputRead(st: Scan, p: Piece, c: Context)
    requires p != Unclosed
    ensures TokenOutput(Read(st, p).tokens, c) + Read(st, p).pending == TokenOutput(st.tokens, c) + st.pending + Meaning(p, c)
  {
    hide ItemFor, TokenOutput;
    if p.Bare? || p.Braced? {
      var t := Dir(p.name, if p.Bare? then "" else p.fmt);
      OutputConcat(st.tokens + Flush(st.pending), [t], c);
      OutputConcat(st.tokens, Flush(st.pending), c);
      OutputOne(t, c);
      OutputFlush(st.pending, c);
    }
  }

  lemma {:induction false} DirectAfter(st: Scan, rest: string, c: Context)
    requires Unclosed !in Lex(rest)
    ensures TokenOutput(ReadAll(st, Lex(rest)).tokens, c) + ReadAll(st, Lex(rest)).pending
         == TokenOutput(st.tokens, c) + st.pending + Direct(rest, c)
    decreases |rest|
  {
    if rest != "" {
      hide First, Source, Read, Meaning, TokenOutput;
      var p := First(rest);
      var tail := rest[|Source(p)|..];
      assert Lex(rest)[0] == p && Lex(rest)[1..] == Lex(tail);
      OutputRead(st, p, c);
      DirectAfter(Read(st, p), tail, c);
    }
  }

  lemma {:induction false} PendingIff(st: Scan, ps: seq<Piece>)
    requires Unclosed !in ps
    ensures ReadAll(st, ps).pending == "" <==> if ps == [] then st.pending == "" else IsDirective(ps[|ps| - 1])
    decreases ps
  {
    if ps != [] {
      PendingIff(Read(st, ps[0]), ps[1..]);
    }
  }

  /** Compiled formatting refines direct interpretation: for every pattern without an
      unclosed brace the compiled output is the direct reading minus the text still
      pending at the end; the two agree iff the pattern is empty or, in its text, a
      directive outside closed formats reaches to the end. */
  lemma FormatRefinesDirect(pattern: string, c: Context)
    requires forall i :: !DanglesAt(pattern, i)
    ensures Output(pattern, c) + Compile(pattern).pending == Direct(pattern, c)
    ensures Output(pattern, c) == Direct(pattern, c) <==>
      pattern == "" || exists i :: EndsFrom(pattern, i)
  {
    hide EndsFrom, DanglesAt;
    var ps := Lex(pattern);
    UnclosedIff(pattern);
    DirectAfter(START, pattern, c);
    PendingIff(START, ps);
    if pattern != "" {
      EndsInDirectiveIff(pattern);
    }
    assert |Direct(pattern, c)| == |Output(pattern, c)| + |Compile(pattern).pending|;
  }

  // Text after the last directive is compiled into nothing.
  lemma TrailingTextLost(c: Context)
    ensures Compile("x") == Scan([], "x", false) && Output("x", c) == "" && Direct("x", c) == "x"
  {
    assert First("x") == Plain('x') && "x"[1..] == "";
    assert Lex("x") == [Plain('x')];
    ReadAllCons(START, Plain('x'), []);
    assert [Plain('x')] == [Plain('x')] + [];
    assert "" + "x" == "x";
  }

  // ---------------------------------------------------------------- how often text is written

  // The literal tokens' texts, one after the other.
  function LitText(ts: seq<Token>): string {
    if ts == [] then "" else (if ts[0].Lit? then ts[0].text else "") + LitText(ts[1..])
  }

  // Each character as itself, each unclosed brace as its error marker.
  function WrittenFor(p: Piece): string {
    match p
    case Plain(c) => [c]
    case Percent => "%"
    case Unclosed => PARSE_ERROR
    case _ => ""
  }

  function Written(ps: seq<Piece>): string {
    if ps == [] then "" else WrittenFor(ps[0]) + Written(ps[1..])
  }

  // Characters flushed without being cleared, so that they are written again later.
  function Repeated(st: Scan, ps: seq<Piece>): nat
    decreases ps
  {
    if ps == [] then 0
    else (if ps[0].Unclosed? then |st.pending| else 0) + Repeated(Read(st, ps[0]), ps[1..])
  }

  lemma {:induction false} LitTextConcat(ts: seq<Token>, us: seq<Token>)
    ensures LitText(ts + us) == LitText(ts) + LitText(us)
  {
    if ts == [] {
      assert ts + us == us;
    } else {
      assert (ts + us)[1..] == ts[1..] + us;
      LitTextConcat(ts[1..], us);
      Assoc(if ts[0].Lit? then ts[0].text else "", LitText(ts[1..]), LitText(us));
    }
  }

  lemma LitTextOne(t: Token)
    ensures LitText([t]) == if t.Lit? then t.text else ""
  {
    assert [t][1..] == [] && LitText([]) == "";
    assert t.Lit? ==> t.text + "" == t.text;
  }

  lemma LitTextFlush(pending: string)
    ensures LitText(Flush(pending)) == pending
  {
    if pending != "" {
      LitTextOne(Lit(pending));
    }
  }

  // What one piece adds: its own text, and after an unclosed brace the pending text again.
  lemma LitTextRead(st: Scan, p: Piece)
    ensures LitText(Read(st, p).tokens) + Read(st, p).pending ==
      if p.Unclosed? then LitText(st.tokens) + PARSE_ERROR + st.pending + st.pending
      else LitText(st.tokens) + st.pending + WrittenFor(p)
  {
    LitTextFlush(st.pending);
    if p.Bare? || p.Braced? {
      var t := Dir(p.name, if p.Bare? then "" else p.fmt);
      LitTextOne(t);
      LitTextConcat(st.tokens + Flush(st.pending), [t]);
      LitTextConcat(st.tokens, Flush(st.pending));
    } else if p.Unclosed? {
      LitTextOne(Lit(PARSE_ERROR));
      LitTextConcat(st.tokens + [Lit(PARSE_ERROR)], Flush(st.pending));
      LitTextConcat(st.tokens, [Lit(PARSE_ERROR)]);
    }
    hide LitText;
  }

  lemma LitTextStep(st: Scan, ps: seq<Piece>)
    requires ps != []
    ensures var next := Read(st, ps[0]);
      var again := if ps[0].Unclosed? then |st.pending| else 0;
      |LitText(next.tokens) + next.pending + Written(ps[1..])| == |LitText(st.tokens) + st.pending + Written(ps)| + again &&
      (again == 0 ==> LitText(next.tokens) + next.pending + Written(ps[1..]) == LitText(st.tokens) + st.pending + Written(ps))
  {
    LitTextRead(st, ps[0]);
    var text, rest := LitText(st.tokens), Written(ps[1..]);
    assert Written(ps) == WrittenFor(ps[0]) + rest;
    if ps[0].Unclosed? {
      WrittenAgain(text, PARSE_ERROR, st.pending, rest);
    } else {
      Assoc(text + st.pending, WrittenFor(ps[0]), rest);
    }
    hide Read, LitText, Written;
  }

  lemma WrittenAgain(text: string, marker: string, pending: string, rest: string)
    ensures |text + marker + pending + pending + rest| == |text + pending + (marker + rest)| + |pending|
    ensures pending == "" ==> text + marker + pending + pending + rest == text + pending + (marker + rest)
  {
  }

  lemma {:induction false} LitTextReadAll(st: Scan, ps: seq<Piece>)
    ensures var end := ReadAll(st, ps);
      |LitText(end.tokens) + end.pending| == |LitText(st.tokens) + st.pending + Written(ps)| + Repeated(st, ps) &&
      (Repeated(st, ps) == 0 ==> LitText(end.tokens) + end.pending == LitText(st.tokens) + st.pending + Written(ps))
    decreases ps
  {
    if ps != [] {
      LitTextStep(st, ps);
      LitTextReadAll(Read(st, ps[0]), ps[1..]);
      hide Read, LitText, Written;
    }
  }

  predicate IsText(p: Piece) {
    p.Plain? || p.Percent?
  }

  // An unclosed brace at j is read while the text at i is pending.
  predicate BreaksText(ps: seq<Piece>, i: int, j: int) {
    0 <= i < j < |ps| && IsText(ps[i]) && ps[j].Unclosed? && forall k :: i < k < j ==> !IsDirective(ps[k])
  }

  // An unclosed brace is read at j with no directive before it.
  predicate BreaksFirst(ps: seq<Piece>, j: int) {
    0 <= j < |ps| && ps[j].Unclosed? && forall k :: 0 <= k < j ==> !IsDirective(ps[k])
  }

  lemma BreaksTextCons(ps: seq<Piece>)
    requires ps != []
    ensures (exists i, j :: BreaksText(ps, i, j)) <==>
      (exists i, j :: BreaksText(ps[1..], i, j)) || (IsText(ps[0]) && exists j :: BreaksFirst(ps[1..], j))
  {
    var rest := ps[1..];
    assert forall k :: 0 < k < |ps| ==> ps[k] == rest[k - 1];
    if i, j :| BreaksText(ps, i, j) {
      if i == 0 {
        assert BreaksFirst(rest, j - 1);
      } else {
        assert BreaksText(rest, i - 1, j - 1);
      }
    }
    if i, j :| BreaksText(rest, i, j) {
      assert BreaksText(ps, i + 1, j + 1);
    }
    if j :| BreaksFirst(rest, j) && IsText(ps[0]) {
      assert BreaksText(ps, 0, j + 1);
    }
  }

  lemma BreaksFirstCons(ps: seq<Piece>)
    requires ps != []
    ensures (exists j :: BreaksFirst(ps, j)) <==>
      ps[0].Unclosed? || (!IsDirective(ps[0]) && exists j :: BreaksFirst(ps[1..], j))
  {
    var rest := ps[1..];
    assert forall k :: 0 < k < |ps| ==> ps[k] == rest[k - 1];
    if j :| BreaksFirst(ps, j) {
      if j > 0 {
        assert BreaksFirst(rest, j - 1);
      }
    }
    if j :| BreaksFirst(rest, j) && !IsDirective(ps[0]) {
      assert BreaksFirst(ps, j + 1);
    }
    if ps[0].Unclosed? {
      assert BreaksFirst(ps, 0);
    }
  }

  lemma {:induction false} RepeatedIff(st: Scan, ps: seq<Piece>)
    ensures Repeated(st, ps) > 0 <==>
      (exists i, j :: BreaksText(ps, i, j)) || (st.pending != "" && exists j :: BreaksFirst(ps, j))
    decreases ps
  {
    if ps != [] {
      hide BreaksText, BreaksFirst;
      BreaksTextCons(ps);
      BreaksFirstCons(ps);
      RepeatedIff(Read(st, ps[0]), ps[1..]);
    }
  }

  /** Every literal character is written exactly once, in order, with an error marker for
      each unclosed brace and the rest still pending, iff no unclosed brace follows literal
      text without a directive in between; otherwise that text is written again. */
  lemma LiteralsKeptOnceIff(pattern: string)
    ensures
      var r := Compile(pattern);
      var ps := Lex(pattern);
      LitText(r.tokens) + r.pending == Written(ps) <==> forall i, j :: !BreaksText(ps, i, j)
  {
    var ps := Lex(pattern);
    LitTextReadAll(START, ps);
    RepeatedIff(START, ps);
    assert LitText(START.tokens) + START.pending + Written(ps) == Written(ps);
  }

  // An input where it fails: "x" is written before the '{' is found missing, and again.
  lemma TextWrittenTwice()
    ensures Compile("x%{%m") == Scan([Lit("<parse_error>"), Lit("x"), Lit("x{"), Dir("m", "")], "", true)
  {
    hide First, Lex, ReadAll;
    LexBroken();
    var s0 := Read(START, Plain('x'));
    assert s0 == Scan([], "x", false);
    var s1 := Read(s0, Unclosed);
    assert s1 == Scan([Lit(PARSE_ERROR), Lit("x")], "x", true);
    var s2 := Read(s1, Plain('{'));
    assert s2 == Scan([Lit(PARSE_ERROR), Lit("x")], "x{", true);
    ReadAllFour(START, Plain('x'), Unclosed, Plain('{'), Bare("m"));
  }

  lemma ReadAllCons(st: Scan, p: Piece, ps: seq<Piece>)
    ensures ReadAll(st, [p] + ps) == ReadAll(Read(st, p), ps)
  {
    assert ([p] + ps)[1..] == ps;
  }

  lemma ReadAllFour(st: Scan, a: Piece, b: Piece, c: Piece, d: Piece)
    ensures ReadAll(st, [a, b, c, d]) == Read(Read(Read(Read(st, a), b), c), d)
  {
    hide Read;
    ReadAllCons(st, a, [b, c, d]);
    ReadAllCons(Read(st, a), b, [c, d]);
    ReadAllCons(Read(Read(st, a), b), c, [d]);
    ReadAllCons(Read(Read(Read(st, a), b), c), d, []);
  }

  lemma LexBroken()
    ensures Lex("x%{%m") == [Plain('x'), Unclosed, Plain('{'), Bare("m")]
  {
    var ps := [Plain('x'), Unclosed, Plain('{'), Bare("m")];
    assert ps[1..][1..] == ps[2..] && ps[2..][1..] == ps[3..] && ps[3..][1..] == [];
    assert Text(ps[3..]) == "%m";
    assert Text(ps[2..]) == "{%m";
    assert Text(ps[1..]) == "%{%m";
    assert Text(ps) == "x%{%m";
    assert Dangling("{%m");
    hide Dangling;
    assert WellFormed(ps[2..]);
    assert WellFormed(ps);
    LexInvertsText(ps);
  }

  // ---------------------------------------------------------------- "%%"

  // The reading the comment in the source describes: "%%" stands for one '%'.
  function Intended(s: string): seq<Piece>
    decreases |s|
  {
    if s == "" then []
    else if |s| > 1 && s[0] == '%' && s[1] == '%' then [Percent] + Intended(s[2..])
    else [First(s)] + Intended(s[|Source(First(s))|..])
  }

  function PercentCount(ps: seq<Piece>): nat {
    if ps == [] then 0 else (if ps[0].Percent? then 1 else 0) + PercentCount(ps[1..])
  }

  lemma SourcePercent()
    ensures Source(Percent) == "%"
  {
  }

  lemma {:induction false} IntendedLength(s: string)
    ensures |Text(Intended(s))| + PercentCount(Intended(s)) == |s|
    decreases |s|
  {
    if s != "" {
      hide First, Source;
      var q := Intended(s);
      if |s| > 1 && s[0] == '%' && s[1] == '%' {
        assert q[1..] == Intended(s[2..]);
        IntendedLength(s[2..]);
        assert |Source(Percent)| == 1 by {
          SourcePercent();
        }
      } else {
        var rest := s[|Source(First(s))|..];
        assert q[1..] == Intended(rest);
        IntendedLength(rest);
      }
    }
  }

  lemma {:induction false} IntendedWithout(s: string)
    requires Percent !in Lex(s)
    ensures Intended(s) == Lex(s)
    decreases |s|
  {
    if s != "" {
      var p := First(s);
      assert Lex(s)[0] == p;
      hide First, Source;
      IntendedWithout(s[|Source(p)|..]);
    }
  }

  lemma {:induction false} PercentCountZero(ps: seq<Piece>)
    ensures PercentCount(ps) == 0 <==> Percent !in ps
  {
    if ps != [] {
      PercentCountZero(ps[1..]);
    }
  }

  /** The pattern is read as the comment says iff every "%%" in the text lies in a closed
      format: anywhere else, the second '%' is read again as a directive. */
  lemma EscapeReadAsIntendedIff(pattern: string)
    ensures Lex(pattern) == Intended(pattern) <==> forall i :: !DoubledAt(pattern, i)
  {
    PercentIff(pattern);
    if Percent !in Lex(pattern) {
      IntendedWithout(pattern);
    } else {
      IntendedLength(pattern);
      LexTiles(pattern);
      PercentCountZero(Lex(pattern));
    }
    hide DoubledAt;
  }

  lemma EscapeIntended()
    ensures Intended("%%d") == [Percent, Plain('d')]
  {
    assert "%%d"[2..] == "d" && "d"[1..] == "";
    assert Intended("d") == [Plain('d')];
  }

  // "%%d" compiles to a literal '%' followed by the directive d, not to the text "%d".
  lemma EscapeExample()
    ensures Lex("%%d") == [Percent, Bare("d")] && Intended("%%d") == [Percent, Plain('d')]
  {
    EscapeIntended();
    var ps := [Percent, Bare("d")];
    hide Intended, Lex;
    assert ps[1..] == [Bare("d")] && ps[1..][1..] == [];
    assert Text(ps[1..]) == "%d" + "" == "%d";
    assert Text(ps) == "%" + "%d" == "%%d";
    assert WellFormed(ps);
    LexInvertsText(ps);
  }
}
