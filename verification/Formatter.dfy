/** LogFormatter: the scanner of init with its nested loops, run once by the constructor,
    and the loop that runs the compiled items. */
module Formatter {
  import opened Basics
  import opened Pattern
  import opened Compiler

  class LogFormatter {
    const pattern: string
    const items: seq<Item>
    const error: bool

    // What the constructor leaves; nothing changes a formatter afterwards.
    ghost predicate Ready() {
      items == ItemsOf(Compile(pattern).tokens) && error == Failed(Compile(pattern))
    }

    constructor (pattern: string)
      ensures this.pattern == pattern && Ready()
    {
      var vec, broken := ScanPattern(pattern);
      var its, unknown := BuildItems(vec);
      this.pattern := pattern;
      items := its;
      error := broken || unknown;
    }

    // Runs the items in order into one string.
    method Format(c: Context) returns (text: string)
      ensures text == RenderAll(items, c)
    {
      text := "";
      for j := 0 to |items|
        invariant text + RenderAll(items[j..], c) == RenderAll(items, c)
      {
        text := text + Render(items[j], c);
        assert items[j..][1..] == items[j + 1..];
      }
      assert items[|items|..] == [];
    }
  }

  // std::string's operator[]: the position one past the end reads as '\0'.
  function At(pattern: string, n: nat): char
    requires n <= |pattern|
  {
    if n < |pattern| then pattern[n] else '\0'
  }

  /** The nested loops of init that read one directive from the '%' at i.  The cursor n
      never passes the position after the end by more than one, and a closed directive
      leaves it right behind the directive's text. */
  method ScanDirective(pattern: string, i: nat) returns (n: nat, fmtStatus: int, str: string, fmt: string)
    requires i < |pattern| && pattern[i] == '%'
    requires i + 1 < |pattern| ==> pattern[i + 1] != '%'
    ensures i < n <= |pattern| + 1
    ensures fmtStatus == 0 || fmtStatus == 1
    ensures fmtStatus == 0 ==>
      var p := First(pattern[i..]);
      n == i + |Source(p)| && (p == Braced(str, fmt) || (p == Bare(str) && fmt == ""))
    ensures fmtStatus == 1 ==> First(pattern[i..]) == Unclosed && fmt == ""
  {
    n := i + 1;
    fmtStatus := 0;
    str, fmt := "", "";
    var fmtBegin := 0;
    while n < |pattern|
      invariant i + 1 <= n <= |pattern| + 1 && fmt == ""
      invariant fmtStatus == 0 || fmtStatus == 1
      invariant fmtStatus == 0 ==>
        n <= |pattern| && AllAlpha(pattern[i + 1..n]) && str == if n < |pattern| then "" else pattern[i + 1..n]
      invariant fmtStatus == 1 ==> n == |pattern| + 1 && First(pattern[i..]) == Unclosed
    {
      if !IsAlpha(pattern[n]) && pattern[n] != '{' {
        str := pattern[i + 1..n];
        ReadBare(pattern, i, n);
        break;
      }
      if fmtStatus == 0 {
        if pattern[n] == '{' {
          str := pattern[i + 1..n];
          fmtStatus := 1;
          fmtBegin := n;
          n := n + 1;
        }
      }
      if fmtStatus == 1 {
        while n < |pattern| && pattern[n] != '}'
          invariant fmtBegin < n <= |pattern| && '}' !in pattern[fmtBegin + 1..n]
        {
          n := n + 1;
        }
        ReadBraced(pattern, i, fmtBegin, n);
        if At(pattern, n) == '}' {
          fmt := pattern[fmtBegin + 1..n];
          fmtStatus := 0;
          n := n + 1;
          break;
        }
      }
      assert n < |pattern| ==> pattern[i + 1..n + 1] == pattern[i + 1..n] + [pattern[n]];
      n := n + 1;
      if n == |pattern| {
        if str == "" {
          str := pattern[i + 1..];
        }
      }
    }
    if fmtStatus == 0 && fmt == "" && n == |pattern| && AllAlpha(pattern[i + 1..n]) {
      ReadBare(pattern, i, n);
    }
  }

  /** The first half of init: cuts the pattern into the triples of vec, one '%' at a time. */
  method ScanPattern(pattern: string) returns (vec: seq<Token>, error: bool)
    ensures vec == Compile(pattern).tokens && error == Compile(pattern).broken
  {
    hide First, Source;
    vec, error := [], false;
    var nstr := "";
    var i := 0;
    while i < |pattern|
      invariant 0 <= i <= |pattern|
      invariant ReadAll(Scan(vec, nstr, error), Lex(pattern[i..])) == Compile(pattern)
    {
      LexHead(pattern, i, Scan(vec, nstr, error));
      ReadHead(pattern, i);
      ghost var next := Read(Scan(vec, nstr, error), First(pattern[i..]));
      if pattern[i] != '%' {
        nstr := nstr + [pattern[i]];
      } else if i + 1 < |pattern| && pattern[i + 1] == '%' {
        nstr := nstr + "%";
      } else {
        var n, fmtStatus, str, fmt := ScanDirective(pattern, i);
        if fmtStatus == 0 {
          if nstr != "" {
            vec := vec + [Lit(nstr)];
            nstr := "";
          }
          vec := vec + [Dir(str, fmt)];
          i := n - 1;
        } else if fmtStatus == 1 {
          error := true;
          vec := vec + [Lit(PARSE_ERROR)];
        }
        if nstr != "" {
          vec := vec + [Lit(nstr)];
        }
      }
      assert Scan(vec, nstr, error) == next;
      i := i + 1;
    }
    assert Lex(pattern[i..]) == [];
  }

  // The second half of init: one item for each triple, from the item table.
  method BuildItems(vec: seq<Token>) returns (items: seq<Item>, error: bool)
    ensures items == ItemsOf(vec) && error == HasUnknown(vec)
  {
    hide TableItem, Known, HasUnknown, ItemsOf;
    NoneUnknown();
    items, error := [], false;
    var j := 0;
    while j < |vec|
      invariant 0 <= j <= |vec|
      invariant items == ItemsOf(vec)[..j] && error == HasUnknown(vec[..j])
    {
      HasUnknownStep(vec, j);
      ItemsStep(vec, j);
      match vec[j] {
        case Lit(text) =>
          items := items + [Str(text)];
        case Dir(name, fmt) =>
          TableIff(name, fmt);
          match TableItem(name, fmt) {
            case None =>
              error := true;
              items := items + [Str("<<error_format %" + name + ">>")];
            case Some(item) =>
              items := items + [item];
          }
      }
      j := j + 1;
    }
    assert vec[..j] == vec;
  }

  // The letters from i + 1 to n, ended by another character or the end, are a bare directive.
  lemma ReadBare(pattern: string, i: nat, n: nat)
    requires i < n <= |pattern| && pattern[i] == '%' && AllAlpha(pattern[i + 1..n])
    requires i + 1 < |pattern| ==> pattern[i + 1] != '%'
    requires n < |pattern| ==> !IsAlpha(pattern[n]) && pattern[n] != '{'
    ensures First(pattern[i..]) == Bare(pattern[i + 1..n])
  {
    var p := Bare(pattern[i + 1..n]);
    assert pattern[i..] == Source(p) + pattern[n..];
    FirstIffFits(p, pattern[n..]);
  }

  // A '{' at b behind letters, with no '}' before n.
  lemma ReadBraced(pattern: string, i: nat, b: nat, n: nat)
    requires i < b < n <= |pattern| && pattern[i] == '%' && pattern[b] == '{'
    requires AllAlpha(pattern[i + 1..b]) && '}' !in pattern[b + 1..n]
    requires n < |pattern| ==> pattern[n] == '}'
    ensures First(pattern[i..]) ==
      if n < |pattern| then Braced(pattern[i + 1..b], pattern[b + 1..n]) else Unclosed
  {
    if n < |pattern| {
      ReadClosed(pattern, i, b, n);
    } else {
      ReadUnclosed(pattern, i, b);
    }
  }

  lemma ReadClosed(pattern: string, i: nat, b: nat, n: nat)
    requires i < b < n < |pattern| && pattern[i] == '%' && pattern[b] == '{' && pattern[n] == '}'
    requires AllAlpha(pattern[i + 1..b]) && '}' !in pattern[b + 1..n]
    ensures First(pattern[i..]) == Braced(pattern[i + 1..b], pattern[b + 1..n])
  {
    hide First;
    var p := Braced(pattern[i + 1..b], pattern[b + 1..n]);
    FirstIffFits(p, pattern[n + 1..]);
    assert pattern[i..] == Source(p) + pattern[n + 1..];
  }

  lemma ReadUnclosed(pattern: string, i: nat, b: nat)
    requires i < b < |pattern| && pattern[i] == '%' && pattern[b] == '{'
    requires AllAlpha(pattern[i + 1..b]) && '}' !in pattern[b + 1..]
    ensures First(pattern[i..]) == Unclosed
  {
    hide First, AlphaRun;
    var rest := pattern[i + 1..];
    assert rest == pattern[i + 1..b] + pattern[b..];
    DirectiveRun(pattern[i + 1..b], pattern[b..]);
    assert rest[b - i - 1..] == ['{'] + pattern[b + 1..];
    FirstIffFits(Unclosed, rest);
    assert pattern[i..] == Source(Unclosed) + rest;
  }

  lemma LexHead(pattern: string, i: nat, st: Scan)
    requires i < |pattern|
    ensures var p := First(pattern[i..]);
      i + |Source(p)| <= |pattern| &&
      ReadAll(st, Lex(pattern[i..])) == ReadAll(Read(st, p), Lex(pattern[i + |Source(p)|..]))
  {
    hide First, Source, Read;
    var s := pattern[i..];
    var n := |Source(First(s))|;
    assert s[n..] == pattern[i + n..];
    assert Lex(s)[1..] == Lex(s[n..]);
  }

  // The pieces that are one character long.
  lemma ReadHead(pattern: string, i: nat)
    requires i < |pattern|
    ensures pattern[i] != '%' ==> First(pattern[i..]) == Plain(pattern[i])
    ensures pattern[i] == '%' && i + 1 < |pattern| && pattern[i + 1] == '%' ==> First(pattern[i..]) == Percent
    ensures forall c :: |Source(Plain(c))| == 1
    ensures |Source(Percent)| == |Source(Unclosed)| == 1
  {
  }

  lemma NoneUnknown()
    ensures !HasUnknown([])
  {
  }

  lemma TableIff(name: string, fmt: string)
    ensures TableItem(name, fmt).Some? <==> Known(name)
  {
  }

  lemma ItemsStep(ts: seq<Token>, j: nat)
    requires j < |ts|
    ensures ItemsOf(ts)[..j + 1] == ItemsOf(ts)[..j] + [ItemFor(ts[j])]
  {
    hide ItemsOf, ItemFor;
  }

  lemma HasUnknownStep(ts: seq<Token>, j: nat)
    requires j < |ts|
    ensures HasUnknown(ts[..j + 1]) == (HasUnknown(ts[..j]) || (ts[j].Dir? && !Known(ts[j].name)))
  {
    hide Known;
    assert ts[..j + 1] == ts[..j] + [ts[j]];
    assert ts[..j + 1][j] == ts[j];
  }
}
