/** What the numbers in a line read as, and the text each directive writes. */
module Decimals {
  import opened Basics
  import opened Pattern
  import opened Compiler

  predicate IsDigit(c: char) {
    '0' <= c <= '9'
  }

  predicate AllDigits(s: string) {
    forall j :: 0 <= j < |s| ==> IsDigit(s[j])
  }

  // Base ten, from left to right.
  function ReadOn(n: nat, s: string): nat
    requires AllDigits(s)
    decreases s
  {
    if s == "" then n else ReadOn(10 * n + (s[0] as int - '0' as int), s[1..])
  }

  // A number as one writes it: digits only, no leading zero but in "0" itself.
  predicate Numeral(s: string) {
    s != "" && AllDigits(s) && (s[0] == '0' ==> s == "0")
  }

  lemma {:induction false} ReadOnSnoc(n: nat, s: string, c: char)
    requires AllDigits(s) && IsDigit(c)
    ensures AllDigits(s + [c]) && ReadOn(n, s + [c]) == 10 * ReadOn(n, s) + (c as int - '0' as int)
    decreases s
  {
    if s == "" {
      assert s + [c] == [c];
    } else {
      assert (s + [c])[1..] == s[1..] + [c];
      ReadOnSnoc(10 * n + (s[0] as int - '0' as int), s[1..], c);
    }
  }

  lemma {:induction false} DigitsRead(n: nat)
    ensures Numeral(Digits(n)) && ReadOn(0, Digits(n)) == n
    ensures Digits(n)[0] == '0' ==> n == 0
  {
    var c := ('0' as int + n % 10) as char;
    if n < 10 {
      assert Digits(n)[1..] == "";
    } else {
      DigitsRead(n / 10);
      ReadOnSnoc(0, Digits(n / 10), c);
    }
  }

  lemma {:induction false} ReadOnGrows(n: nat, s: string)
    requires AllDigits(s)
    ensures ReadOn(n, s) >= n
    decreases s
  {
    if s != "" {
      ReadOnGrows(10 * n + (s[0] as int - '0' as int), s[1..]);
    }
  }

  lemma {:induction false} NumeralIsDigits(s: string)
    requires Numeral(s)
    ensures s == Digits(ReadOn(0, s))
  {
    var k := |s| - 1;
    assert s == s[..k] + [s[k]];
    if k == 0 {
      assert s[1..] == "";
    } else {
      assert s[..k][0] == s[0] != '0';
      NumeralIsDigits(s[..k]);
      ReadOnSnoc(0, s[..k], s[k]);
      var d := s[k] as int - '0' as int;
      ReadOnGrows(s[0] as int - '0' as int, s[..k][1..]);
      assert ReadOn(0, s[..k]) >= 1;
      assert (10 * ReadOn(0, s[..k]) + d) / 10 == ReadOn(0, s[..k]) && (10 * ReadOn(0, s[..k]) + d) % 10 == d;
    }
  }

  /** A number is written as the one numeral that reads as it. */
  lemma DigitsIff(n: nat, s: string)
    ensures s == Digits(n) <==> Numeral(s) && ReadOn(0, s) == n
  {
    DigitsRead(n);
    if Numeral(s) {
      NumeralIsDigits(s);
    }
  }

  // s is n in decimal, with a minus sign if n is negative.
  predicate Denotes(s: string, n: int) {
    if n < 0 then s != "" && s[0] == '-' && Numeral(s[1..]) && ReadOn(0, s[1..]) == -n
    else Numeral(s) && ReadOn(0, s) == n
  }

  /** A negative number is written as a minus sign and the numeral of its absolute value. */
  lemma DecimalIff(n: int, s: string)
    ensures s == Decimal(n) <==> Denotes(s, n)
  {
    if n < 0 {
      DigitsRead(-n);
      if s != "" && s[0] == '-' {
        assert s == "-" + s[1..];
        DigitsIff(-n, s[1..]);
      }
      assert ("-" + Digits(-n))[1..] == Digits(-n);
    } else {
      DigitsIff(n, s);
    }
  }

  const LEVEL_NAMES := ["UNKNOW", "DEBUG", "INFO", "WARN", "ERROR", "FATAL"]

  // The text a directive writes for an event.
  function TextOf(name: string, fmt: string, c: Context): string {
    Render(ItemFor(Dir(name, fmt)), c)
  }

  lemma LevelNamed(l: Level)
    ensures LevelText(l) == LEVEL_NAMES[l]
  {
  }

  lemma Denoted(n: int)
    ensures Denotes(Decimal(n), n)
  {
    DecimalIff(n, Decimal(n));
  }

  // A name that is not in the table is written as an error text.
  lemma UnknownWritten(name: string, fmt: string, c: Context)
    requires name != "m" && name != "p" && name != "r" && name != "c" && name != "t" && name != "n"
    requires name != "d" && name != "l" && name != "F" && name != "T" && name != "f"
    ensures TextOf(name, fmt, c) == "<<error_format %" + name + ">>"
  {
    hide Decimal, LevelText;
  }

  lemma TextsWritten(fmt: string, c: Context)
    ensures TextOf("m", fmt, c) == c.event.content && TextOf("f", fmt, c) == c.event.file && TextOf("c", fmt, c) == c.logger
    ensures TextOf("p", fmt, c) == LevelText(c.level) && TextOf("n", fmt, c) == "\n" && TextOf("T", fmt, c) == "\t"
    ensures TextOf("d", fmt, c) == c.strftime(if fmt == "" then "%Y-%m-%d %H:%M:%S" else fmt, c.event.time)
  {
    hide Decimal, LevelText;
  }

  lemma NumbersWritten(fmt: string, c: Context)
    ensures TextOf("l", fmt, c) == Decimal(c.event.line) && TextOf("r", fmt, c) == Decimal(c.event.elapse)
    ensures TextOf("t", fmt, c) == Decimal(c.event.threadId) && TextOf("F", fmt, c) == Decimal(c.event.fiberId)
  {
    hide Decimal, LevelText;
  }

  /** What each directive of the table writes: a part of the event, its numbers in decimal. */
  lemma DirectivesWrite(fmt: string, c: Context)
    ensures TextOf("m", fmt, c) == c.event.content && TextOf("f", fmt, c) == c.event.file && TextOf("c", fmt, c) == c.logger
    ensures TextOf("p", fmt, c) == LEVEL_NAMES[c.level] && TextOf("n", fmt, c) == "\n" && TextOf("T", fmt, c) == "\t"
    ensures TextOf("d", fmt, c) == c.strftime(if fmt == "" then "%Y-%m-%d %H:%M:%S" else fmt, c.event.time)
    ensures Denotes(TextOf("l", fmt, c), c.event.line) && Denotes(TextOf("r", fmt, c), c.event.elapse)
    ensures Denotes(TextOf("t", fmt, c), c.event.threadId) && Denotes(TextOf("F", fmt, c), c.event.fiberId)
  {
    hide *;
    TextsWritten(fmt, c);
    NumbersWritten(fmt, c);
    LevelNamed(c.level);
    Denoted(c.event.line);
    Denoted(c.event.elapse);
    Denoted(c.event.threadId);
    Denoted(c.event.fiberId);
  }
}
