/** The line a logger writes when nothing was configured. */
module DefaultFormat {
  import opened Basics
  import opened Pattern
  import opened Compiler
  import opened Decimals
  import opened RoundTrip
  import opened Logging

  // The default pattern's directives and literals, in four parts.
  const TIMES := [Dir("d", "%Y-%m-%d %H:%M:%S"), Dir("T", ""), Dir("t", ""), Dir("T", ""), Dir("F", "")]
  const LEVELS := [Dir("T", ""), Lit("["), Dir("p", ""), Lit("]"), Dir("T", "")]
  const NAMES := [Lit("["), Dir("c", ""), Lit("]"), Dir("T", ""), Dir("f", "")]
  const PLACES := [Lit(":"), Dir("l", ""), Dir("T", ""), Dir("m", ""), Dir("n", "")]

  lemma Tails<T>(ts: seq<T>)
    requires |ts| == 5
    ensures ts[1..] == [ts[1], ts[2], ts[3], ts[4]] && ts[1..][1..] == [ts[2], ts[3], ts[4]]
    ensures ts[1..][1..][1..] == [ts[3], ts[4]] && ts[1..][1..][1..][1..] == [ts[4]] && ts[1..][1..][1..][1..][1..] == []
  {
  }

  lemma FromRight(a: string, b: string, c: string, d: string, e: string)
    ensures a + (b + (c + (d + (e + "")))) == a + b + c + d + e
  {
    assert e + "" == e;
    Assoc(c, d, e);
    Assoc(b, c, d + e);
    Assoc(b + c, d, e);
    Assoc(a, b, c + (d + e));
    Assoc(a + b, c, d + e);
    Assoc(a + b + c, d, e);
  }

  lemma PrintFive(ts: seq<Token>)
    requires |ts| == 5
    ensures Print(ts) == PrintToken(ts[0]) + PrintToken(ts[1]) + PrintToken(ts[2]) + PrintToken(ts[3]) + PrintToken(ts[4])
  {
    hide PrintToken;
    Tails(ts);
    FromRight(PrintToken(ts[0]), PrintToken(ts[1]), PrintToken(ts[2]), PrintToken(ts[3]), PrintToken(ts[4]));
    assert Print([]) == "";
    assert Print([ts[4]]) == PrintToken(ts[4]) + "";
    assert Print([ts[3], ts[4]]) == PrintToken(ts[3]) + Print([ts[4]]);
    assert Print(ts[1..][1..]) == PrintToken(ts[2]) + Print([ts[3], ts[4]]);
  }

  function Shown(t: Token, c: Context): string {
    Render(ItemFor(t), c)
  }

  lemma OutputFive(ts: seq<Token>, c: Context)
    requires |ts| == 5
    ensures TokenOutput(ts, c) == Shown(ts[0], c) + Shown(ts[1], c) + Shown(ts[2], c) + Shown(ts[3], c) + Shown(ts[4], c)
  {
    OutputCons(ts[4], [], c);
    OutputCons(ts[3], [ts[4]], c);
    OutputCons(ts[2], [ts[3], ts[4]], c);
    OutputCons(ts[1], [ts[2], ts[3], ts[4]], c);
    OutputCons(ts[0], [ts[1], ts[2], ts[3], ts[4]], c);
    OutputFlush("", c);
    hide TokenOutput, Render, ItemFor;
    FromRight(Shown(ts[0], c), Shown(ts[1], c), Shown(ts[2], c), Shown(ts[3], c), Shown(ts[4], c));
    assert [ts[4]] + [] == [ts[4]] && [ts[3]] + [ts[4]] == [ts[3], ts[4]];
    assert [ts[2]] + [ts[3], ts[4]] == [ts[2], ts[3], ts[4]];
    assert [ts[1]] + [ts[2], ts[3], ts[4]] == [ts[1], ts[2], ts[3], ts[4]];
    assert [ts[0]] + [ts[1], ts[2], ts[3], ts[4]] == ts;
  }

  lemma SpellableFive(ts: seq<Token>)
    requires |ts| == 5 && SpellableHead(ts) && SpellableHead([ts[1], ts[2], ts[3], ts[4]])
    requires SpellableHead([ts[2], ts[3], ts[4]]) && SpellableHead([ts[3], ts[4]]) && SpellableHead([ts[4]])
    ensures Spellable(ts)
  {
    hide SpellableHead;
    Tails(ts);
    assert Spellable([ts[4]]);
    assert Spellable([ts[3], ts[4]]);
    assert Spellable([ts[2], ts[3], ts[4]]);
  }

  // Two spellable lists are spellable together unless a bare directive would run into the second.
  lemma {:induction false} SpellableConcat(ts: seq<Token>, us: seq<Token>)
    requires Spellable(ts) && Spellable(us)
    requires ts != [] && us != [] && ts[|ts| - 1].Dir? && ts[|ts| - 1].fmt == "" ==> MayFollowBare(ts[|ts| - 1].name, us[0])
    ensures Spellable(ts + us)
  {
    if ts == [] {
      assert ts + us == us;
    } else {
      hide MayFollowBare, AllAlpha, PercentsLast;
      SpellableConcat(ts[1..], us);
      assert (ts + us)[1..] == ts[1..] + us;
    }
  }

  lemma TimesShown(c: Context)
    ensures Shown(TIMES[0], c) == c.strftime("%Y-%m-%d %H:%M:%S", c.event.time)
    ensures Shown(TIMES[1], c) == Shown(TIMES[3], c) == "\t"
    ensures Shown(TIMES[2], c) == Decimal(c.event.threadId) && Shown(TIMES[4], c) == Decimal(c.event.fiberId)
  {
    hide Decimal;
  }

  lemma TimesLine(c: Context)
    ensures TokenOutput(TIMES, c) ==
      c.strftime("%Y-%m-%d %H:%M:%S", c.event.time) + "\t" + Decimal(c.event.threadId) + "\t" + Decimal(c.event.fiberId)
  {
    OutputFive(TIMES, c);
    TimesShown(c);
    hide *;
  }

  lemma DatePrints()
    ensures PrintToken(TIMES[0]) == "%d{%Y-%m-%d %H:%M:%S}"
  {
  }

  lemma OthersPrint()
    ensures PrintToken(TIMES[1]) == PrintToken(TIMES[3]) == "%T" && PrintToken(TIMES[2]) == "%t" && PrintToken(TIMES[4]) == "%F"
  {
  }

  lemma TimesText()
    ensures "%d{%Y-%m-%d %H:%M:%S}" + "%T" + "%t" + "%T" + "%F" == "%d{%Y-%m-%d %H:%M:%S}%T%t%T%F"
  {
  }

  lemma TimesPrints()
    ensures Print(TIMES) == "%d{%Y-%m-%d %H:%M:%S}%T%t%T%F"
  {
    PrintFive(TIMES);
    DatePrints();
    OthersPrint();
    TimesText();
    hide *;
  }

  lemma TimesSpellable()
    ensures Spellable(TIMES)
  {
    SpellableFive(TIMES);
  }

  lemma LevelsLine(c: Context)
    ensures Spellable(LEVELS) && Print(LEVELS) == "%T[%p]%T"
    ensures TokenOutput(LEVELS, c) == "\t" + "[" + LevelText(c.level) + "]" + "\t"
  {
    SpellableFive(LEVELS);
    PrintFive(LEVELS);
    OutputFive(LEVELS, c);
    hide TokenOutput, LevelText, Print, Spellable;
  }

  lemma NamesLine(c: Context)
    ensures Spellable(NAMES) && Print(NAMES) == "[%c]%T%f"
    ensures TokenOutput(NAMES, c) == "[" + c.logger + "]" + "\t" + c.event.file
  {
    SpellableFive(NAMES);
    PrintFive(NAMES);
    OutputFive(NAMES, c);
    hide TokenOutput, Print, Spellable;
  }

  lemma PlacesLine(c: Context)
    ensures Spellable(PLACES) && Print(PLACES) == ":%l%T%m%n"
    ensures TokenOutput(PLACES, c) == ":" + Decimal(c.event.line) + "\t" + c.event.content + "\n"
  {
    SpellableFive(PLACES);
    PrintFive(PLACES);
    OutputFive(PLACES, c);
    hide TokenOutput, Decimal, Print, Spellable;
  }

  const REFERENCE := Context("", 0, Event("", 0, 0, 0, 0, 0, ""), (fmt, time) => "")

  lemma DefaultSpellable()
    ensures Spellable(TIMES + LEVELS + NAMES + PLACES)
  {
    TimesSpellable();
    LevelsLine(REFERENCE);
    NamesLine(REFERENCE);
    PlacesLine(REFERENCE);
    hide Spellable, Print, TokenOutput;
    SpellableConcat(NAMES, PLACES);
    SpellableConcat(LEVELS, NAMES + PLACES);
    SpellableConcat(TIMES, LEVELS + (NAMES + PLACES));
    Assoc(TIMES, LEVELS, NAMES + PLACES);
    Assoc(TIMES + LEVELS, NAMES, PLACES);
  }

  lemma DefaultText()
    ensures "%d{%Y-%m-%d %H:%M:%S}%T%t%T%F" + "%T[%p]%T" + "[%c]%T%f" + ":%l%T%m%n" == DEFAULT_PATTERN
  {
  }

  lemma DefaultPrints()
    ensures Print(TIMES + LEVELS + NAMES + PLACES) == DEFAULT_PATTERN
  {
    TimesPrints();
    LevelsLine(REFERENCE);
    NamesLine(REFERENCE);
    PlacesLine(REFERENCE);
    PrintConcat(TIMES, LEVELS);
    PrintConcat(TIMES + LEVELS, NAMES);
    PrintConcat(TIMES + LEVELS + NAMES, PLACES);
    hide *;
    DefaultText();
  }

  lemma DefaultTokens()
    ensures Compile(DEFAULT_PATTERN) == Scan(TIMES + LEVELS + NAMES + PLACES, "", false)
  {
    DefaultSpellable();
    DefaultPrints();
    ParserInvertsPrinterIff(TIMES + LEVELS + NAMES + PLACES);
  }

  lemma NumbersDenoted(c: Context)
    ensures Denotes(Decimal(c.event.threadId), c.event.threadId) && Denotes(Decimal(c.event.fiberId), c.event.fiberId)
    ensures Denotes(Decimal(c.event.line), c.event.line) && LevelText(c.level) == LEVEL_NAMES[c.level]
  {
    hide Denotes, Decimal;
    Denoted(c.event.threadId);
    Denoted(c.event.fiberId);
    Denoted(c.event.line);
    LevelNamed(c.level);
  }

  /** Without configuration a line holds the time, thread, fiber, level, logger name, place
      and message of the event, in this order, its numbers in decimal. */
  lemma DefaultLine(c: Context)
    ensures Output(DEFAULT_PATTERN, c) ==
      (c.strftime("%Y-%m-%d %H:%M:%S", c.event.time) + "\t" + Decimal(c.event.threadId) + "\t" + Decimal(c.event.fiberId)) +
      ("\t" + "[" + LevelText(c.level) + "]" + "\t") +
      ("[" + c.logger + "]" + "\t" + c.event.file) +
      (":" + Decimal(c.event.line) + "\t" + c.event.content + "\n")
    ensures Denotes(Decimal(c.event.threadId), c.event.threadId) && Denotes(Decimal(c.event.fiberId), c.event.fiberId)
    ensures Denotes(Decimal(c.event.line), c.event.line) && LevelText(c.level) == LEVEL_NAMES[c.level]
  {
    NumbersDenoted(c);
    DefaultTokens();
    TimesLine(c);
    LevelsLine(c);
    NamesLine(c);
    PlacesLine(c);
    OutputConcat(TIMES, LEVELS, c);
    OutputConcat(TIMES + LEVELS, NAMES, c);
    OutputConcat(TIMES + LEVELS + NAMES, PLACES, c);
    hide Compile, Decimal, Denotes, LevelText, RenderAll;
  }
}
