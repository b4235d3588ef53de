/** The pattern language of LogFormatter: how a pattern is cut into pieces, and what
    token list the pieces compile to.  The scanner of LogFormatter::init keeps three
    cursors into the pattern; here the same reading is a function on the unread suffix. */
module Pattern {
  import opened Basics

  // One step of the scanner over the unread text.
  datatype Piece =
    | Plain(c: char)                    // an ordinary character
    | Percent                           // the first '%' of "%%"; the second is read again
    | Bare(name: string)                // %name
    | Braced(name: string, fmt: string) // %name{fmt}
    | Unclosed                          // a '%' whose '{' is never closed; only the '%' is consumed

  predicate IsAlpha(c: char) {
    'a' <= c <= 'z' || 'A' <= c <= 'Z'
  }

  // isalpha in the "C" locale.
  lemma IsAlphaIff(c: char)
    ensures IsAlpha(c) <==> c in LOWER || c in UPPER
  {
    InLower(c);
    InUpper(c);
  }

  predicate AllAlpha(s: string) {
    forall j :: 0 <= j < |s| ==> IsAlpha(s[j])
  }

  // Length of the longest alphabetic prefix.
  function AlphaRun(s: string): (n: nat)
    ensures n <= |s| && AllAlpha(s[..n])
    ensures n < |s| ==> !IsAlpha(s[n])
  {
    if s == "" || !IsAlpha(s[0]) then 0
    else
      var n := 1 + AlphaRun(s[1..]);
      assert s[..n] == [s[0]] + s[1..][..n - 1];
      n
  }

  // Index of the first '}', or the length when there is none.
  function CloseAt(s: string): (n: nat)
    ensures n <= |s| && '}' !in s[..n]
    ensures n < |s| ==> s[n] == '}'
  {
    if s == "" || s[0] == '}' then 0
    else
      var n := 1 + CloseAt(s[1..]);
      assert s[..n] == [s[0]] + s[1..][..n - 1];
      n
  }

  // The text a piece was read from.
  function Source(p: Piece): (s: string)
    ensures |s| > 0
  {
    match p
    case Plain(c) => [c]
    case Percent => "%"
    case Bare(name) => "%" + name
    case Braced(name, fmt) => "%" + name + "{" + fmt + "}"
    case Unclosed => "%"
  }

  lemma SplitBraces(t: string, k: nat, e: nat)
    requires k < |t| && t[k] == '{' && k + 1 + e < |t| && t[k + 1 + e] == '}'
    ensures "%" + t[..k] + "{" + t[k + 1..][..e] + "}" + t[k + 2 + e..] == "%" + t
  {
  }

  // The directive read after a '%', t being the text behind it.
  function Directive(t: string): (p: Piece)
    ensures Source(p) <= "%" + t
    ensures !p.Plain? && !p.Percent?
  {
    var k := AlphaRun(t);
    if k < |t| && t[k] == '{' then
      var u := t[k + 1..];
      var e := CloseAt(u);
      if e < |u| then
        assert Source(Braced(t[..k], u[..e])) <= "%" + t by {
          SplitBraces(t, k, e);
        }
        Braced(t[..k], u[..e])
      else Unclosed
    else Bare(t[..k])
  }

  // The piece the scanner reads at the start of s.
  function First(s: string): (p: Piece)
    requires s != ""
    ensures Source(p) <= s
  {
    if s[0] != '%' then Plain(s[0])
    else if |s| > 1 && s[1] == '%' then Percent
    else
      assert s == "%" + s[1..];
      Directive(s[1..])
  }

  // Everything the scanner reads.
  function Lex(s: string): seq<Piece>
    decreases |s|
  {
    if s == "" then [] else [First(s)] + Lex(s[|Source(First(s))|..])
  }

  function Text(ps: seq<Piece>): string {
    if ps == [] then "" else Source(ps[0]) + Text(ps[1..])
  }

  // Piece p is what the scanner reads when rest comes after p's own text.
  predicate Fits(p: Piece, rest: string) {
    match p
    case Plain(c) => c != '%'
    case Percent => rest != "" && rest[0] == '%'
    case Bare(name) =>
      AllAlpha(name) &&
      (rest == "" || (!IsAlpha(rest[0]) && rest[0] != '{' && (name == "" ==> rest[0] != '%')))
    case Braced(name, fmt) => AllAlpha(name) && '}' !in fmt
    case Unclosed => Dangling(rest)
  }

  // r opens a brace right after its alphabetic prefix and never closes it.
  predicate Dangling(r: string) {
    var k := AlphaRun(r);
    k < |r| && r[k] == '{' && '}' !in r[k..]
  }

  predicate WellFormed(ps: seq<Piece>) {
    ps == [] || (Fits(ps[0], Text(ps[1..])) && WellFormed(ps[1..]))
  }

  predicate IsDirective(p: Piece) {
    p.Bare? || p.Braced?
  }

  // "%name{}", which compiles to the token of "%name".
  predicate EmptyFormat(p: Piece) {
    p.Braced? && p.fmt == ""
  }

  lemma TextCons(p: Piece, ps: seq<Piece>)
    ensures Text([p] + ps) == Source(p) + Text(ps)
  {
    hide Source;
    assert ([p] + ps)[1..] == ps;
  }

  lemma LexCons(s: string)
    ensures Lex(s) == if s == "" then [] else [First(s)] + Lex(s[|Source(First(s))|..])
  {
    hide First, Source;
  }

  /** Tiling: for every pattern, the spans of the pieces cover the text with no gap,
      overlap or reordering. */
  lemma {:induction false} LexTiles(s: string)
    ensures Text(Lex(s)) == s
    decreases |s|
  {
    hide First, Source, Lex;
    LexCons(s);
    if s != "" {
      hide Text;
      var p := First(s);
      var rest := s[|Source(p)|..];
      LexTiles(rest);
      TextCons(p, Lex(rest));
      assert s == Source(p) + rest;
    }
  }

  lemma AlphaRunIs(s: string, n: nat)
    requires n <= |s| && AllAlpha(s[..n]) && (n < |s| ==> !IsAlpha(s[n]))
    ensures AlphaRun(s) == n
  {
    var m := AlphaRun(s);
    assert forall j :: 0 <= j < n ==> s[..n][j] == s[j];
    assert forall j :: 0 <= j < m ==> s[..m][j] == s[j];
  }

  lemma CloseAtIs(s: string, n: nat)
    requires n <= |s| && '}' !in s[..n] && (n < |s| ==> s[n] == '}')
    ensures CloseAt(s) == n
  {
    var m := CloseAt(s);
    assert forall j :: 0 <= j < n ==> s[..n][j] == s[j];
    assert forall j :: 0 <= j < m ==> s[..m][j] == s[j];
  }

  // A directive is read by its alphabetic name.
  lemma DirectiveRun(name: string, rest: string)
    requires AllAlpha(name) && (rest != "" ==> !IsAlpha(rest[0]))
    ensures AlphaRun(name + rest) == |name|
  {
    var s := name + rest;
    assert s[..|name|] == name;
    AlphaRunIs(s, |name|);
  }

  // A dangling brace leaves no '}' in the whole text, which starts with a letter or '{'.
  lemma DanglingIff(r: string)
    ensures Dangling(r) <==> r != "" && (IsAlpha(r[0]) || r[0] == '{') && '}' !in r && AlphaRun(r) < |r| && r[AlphaRun(r)] == '{'
  {
    hide AlphaRun;
    var k := AlphaRun(r);
    assert r == r[..k] + r[k..];
    if k > 0 {
      assert r[0] == r[..k][0];
    }
  }

  lemma DanglingHead(r: string)
    ensures Dangling(r) ==> r != "" && r[0] != '%'
  {
    DanglingIff(r);
  }

  lemma FirstPercent(t: string)
    ensures First("%" + t) == if t != "" && t[0] == '%' then Percent else Directive(t)
  {
    assert ("%" + t)[1..] == t;
  }

  lemma FirstPlain(c: char, rest: string)
    ensures First([c] + rest) == Plain(c) <==> c != '%'
  {
  }

  lemma BareIffFits(name: string, rest: string)
    ensures Directive(name + rest) == Bare(name) <==> AllAlpha(name) && (rest == "" || (!IsAlpha(rest[0]) && rest[0] != '{'))
  {
    var t := name + rest;
    var k := AlphaRun(t);
    if AllAlpha(name) && (rest != "" ==> !IsAlpha(rest[0])) {
      DirectiveRun(name, rest);
      assert t[..k] == name;
    } else if AllAlpha(name) {
      assert t[..|name| + 1] == name + [rest[0]];
      assert k != |name|;
    }
  }

  lemma BracedIffFits(name: string, fmt: string, rest: string)
    ensures Directive(name + "{" + fmt + "}" + rest) == Braced(name, fmt) <==> Fits(Braced(name, fmt), rest)
  {
    var u := fmt + "}" + rest;
    var t := name + ("{" + u);
    assert name + "{" + fmt + "}" + rest == t;
    if AllAlpha(name) {
      DirectiveRun(name, "{" + u);
      assert t[..|name|] == name && t[|name| + 1..] == u;
      if '}' !in fmt {
        assert u[..|fmt|] == fmt;
        CloseAtIs(u, |fmt|);
      }
    }
  }

  lemma UnclosedIffFits(rest: string)
    ensures Directive(rest) == Unclosed <==> Dangling(rest)
  {
    var k := AlphaRun(rest);
    if k < |rest| && rest[k] == '{' {
      var u := rest[k + 1..];
      assert rest[k..] == ['{'] + u;
      assert u == u[..CloseAt(u)] + u[CloseAt(u)..];
      if '}' !in u {
        CloseAtIs(u, |u|);
      }
    }
  }

  lemma FirstIffFitsBare(name: string, rest: string)
    ensures First(Source(Bare(name)) + rest) == Bare(name) <==> Fits(Bare(name), rest)
  {
    hide First, Directive, AlphaRun;
    FirstPercent(name + rest);
    assert Source(Bare(name)) + rest == "%" + (name + rest);
    BareIffFits(name, rest);
    if name != "" {
      assert (name + rest)[0] == name[0];
    }
  }

  lemma FirstIffFitsBraced(name: string, fmt: string, rest: string)
    ensures First(Source(Braced(name, fmt)) + rest) == Braced(name, fmt) <==> Fits(Braced(name, fmt), rest)
  {
    hide First, Directive, AlphaRun;
    var t := name + "{" + fmt + "}" + rest;
    FirstPercent(t);
    assert Source(Braced(name, fmt)) + rest == "%" + t;
    BracedIffFits(name, fmt, rest);
    if name != "" {
      assert t[0] == name[0];
    } else {
      assert t[0] == '{';
    }
  }

  /** Fits is exactly the condition under which a piece is read back from its text. */
  lemma FirstIffFits(p: Piece, rest: string)
    ensures First(Source(p) + rest) == p <==> Fits(p, rest)
  {
    hide First, Directive, Dangling, AlphaRun;
    match p
    case Plain(c) =>
      FirstPlain(c, rest);
    case Percent =>
      FirstPercent(rest);
    case Unclosed =>
      FirstPercent(rest);
      UnclosedIffFits(rest);
      DanglingHead(rest);
    case Bare(name) =>
      FirstIffFitsBare(name, rest);
    case Braced(name, fmt) =>
      FirstIffFitsBraced(name, fmt, rest);
  }

  /** Reading inverts printing, and only for well-formed piece lists: Lex is a bijection
      between strings and well-formed piece lists, quirks included. */
  lemma {:induction false} LexInvertsText(ps: seq<Piece>)
    ensures Lex(Text(ps)) == ps <==> WellFormed(ps)
  {
    if ps != [] {
      var rest := Text(ps[1..]);
      var s := Source(ps[0]) + rest;
      FirstIffFits(ps[0], rest);
      LexInvertsText(ps[1..]);
      if First(s) == ps[0] {
        assert s[|Source(ps[0])|..] == rest;
        assert ([ps[0]] + Lex(rest))[1..] == Lex(rest);
        assert ps == [ps[0]] + ps[1..];
      } else {
        assert Lex(s)[0] == First(s);
      }
    }
  }

  lemma LexWellFormed(s: string)
    ensures WellFormed(Lex(s))
  {
    LexTiles(s);
    LexInvertsText(Lex(s));
  }

  predicate DanglesAt(s: string, i: int) {
    0 <= i < |s| && s[i] == '%' && Dangling(s[i + 1..])
  }

  // A '%' inside a piece other than at its start lies in a closed format.
  lemma InnerPercent(p: Piece, rest: string, i: nat)
    requires Fits(p, rest) && 0 < i < |Source(p)| && Source(p)[i] == '%'
    ensures '}' in (Source(p) + rest)[i + 1..]
  {
    if p.Braced? {
      var s := Source(p) + rest;
      var n := |Source(p)|;
      assert s[n - 1] == '}' == s[i + 1..][n - 2 - i];
    } else {
      BareHasNoPercent(p.name);
      assert false;
    }
  }

  lemma BareHasNoPercent(name: string)
    requires AllAlpha(name)
    ensures forall i :: 0 < i < |Source(Bare(name))| ==> Source(Bare(name))[i] != '%'
  {
    assert Source(Bare(name))[1..] == name;
  }

  // A dangling '%' is either the next piece or lies beyond it.
  lemma DanglingIsRead(s: string, i: nat)
    requires DanglesAt(s, i)
    ensures if i == 0 then First(s) == Unclosed else |Source(First(s))| <= i
  {
    hide Directive, Dangling;
    DanglingIff(s[i + 1..]);
    if i == 0 {
      UnclosedIffFits(s[1..]);
    } else {
      hide First, Source;
      if i < |Source(First(s))| {
        PercentInside(s, i);
      }
    }
  }

  lemma PercentInside(s: string, i: nat)
    requires s != "" && 0 < i < |Source(First(s))| && s[i] == '%'
    ensures '}' in s[i + 1..]
  {
    var p := First(s);
    var rest := s[|Source(p)|..];
    assert s == Source(p) + rest;
    FirstIffFits(p, rest);
    hide First, Fits;
    InnerPercent(p, rest, i);
  }

  lemma UnclosedHere(s: string)
    requires s != "" && First(s) == Unclosed
    ensures DanglesAt(s, 0)
  {
    UnclosedIffFits(s[1..]);
  }

  lemma DanglesAtShift(s: string, n: nat, i: nat)
    requires n <= |s|
    ensures DanglesAt(s[n..], i) == DanglesAt(s, n + i)
  {
    hide Dangling;
    if n + i < |s| {
      assert s[n..][i + 1..] == s[n + i + 1..];
    }
  }

  /** An unclosed directive is a property of the text alone: some '%' is followed by
      letters and a '{' with no '}' anywhere after it.  A '%' inside a closed format
      never counts, because its '}' comes later. */
  lemma UnclosedIff(s: string)
    ensures Unclosed in Lex(s) <==> exists i :: DanglesAt(s, i)
  {
    if i :| DanglesAt(s, i) {
      DanglingFound(s, i);
    }
    if Unclosed in Lex(s) {
      var i := UnclosedFound(s);
    }
  }

  lemma {:induction false} DanglingFound(s: string, i: nat)
    requires DanglesAt(s, i)
    ensures Unclosed in Lex(s)
    decreases |s|
  {
    hide First, Dangling, Source;
    DanglingIsRead(s, i);
    if i > 0 {
      var n := |Source(First(s))|;
      DanglesAtShift(s, n, i - n);
      DanglingFound(s[n..], i - n);
    }
  }

  lemma {:induction false} UnclosedFound(s: string) returns (i: nat)
    requires Unclosed in Lex(s)
    ensures DanglesAt(s, i)
    decreases |s|
  {
    hide First, Dangling, Source;
    if First(s) == Unclosed {
      UnclosedHere(s);
      i := 0;
    } else {
      var n := |Source(First(s))|;
      i := UnclosedFound(s[n..]);
      DanglesAtShift(s, n, i);
      i := n + i;
    }
  }

  // ---------------------------------------------------------------- where "%%" counts

  // At position i a format opened by the '%' at a and the '{' at b has not been closed yet.
  predicate OpenSince(s: string, i: int, a: int, b: int) {
    0 <= a < b < i <= |s| && s[a] == '%' && AllAlpha(s[a + 1..b]) && s[b] == '{' && '}' !in s[b..i]
  }

  // Position i lies in a format that is closed further on.
  ghost predicate InClosedFormat(s: string, i: int) {
    0 <= i <= |s| && '}' in s[i..] && exists a, b :: OpenSince(s, i, a, b)
  }

  // A "%%" outside closed formats.
  ghost predicate DoubledAt(s: string, i: int) {
    0 <= i < |s| - 1 && s[i] == s[i + 1] == '%' && !InClosedFormat(s, i)
  }

  lemma BracedParts(s: string)
    requires s != "" && First(s).Braced?
    ensures var p := First(s); var b, n := |p.name| + 1, |Source(p)|;
      n <= |s| && b < n - 1 && s[0] == '%' && s[1..b] == p.name && s[b] == '{' && s[b + 1..n - 1] == p.fmt && s[n - 1] == '}' &&
      AllAlpha(p.name) && '}' !in p.fmt
  {
    var p := First(s);
    var n := |Source(p)|;
    assert s == Source(p) + s[n..];
    FirstIffFits(p, s[n..]);
  }

  lemma InsideIsBraced(s: string, i: nat)
    requires s != "" && 0 < i < |Source(First(s))| && s[i] == '%'
    ensures First(s).Braced?
  {
    var p := First(s);
    var n := |Source(p)|;
    assert s == Source(p) + s[n..];
    FirstIffFits(p, s[n..]);
    assert Source(p)[i] == '%';
    hide First, Source, Fits, AllAlpha;
    if !p.Braced? {
      PercentOnlyFirst(p, s[n..]);
    }
  }

  lemma PercentOnlyFirst(p: Piece, rest: string)
    requires Fits(p, rest) && !p.Braced?
    ensures forall i :: 0 < i < |Source(p)| ==> Source(p)[i] != '%'
  {
    hide Dangling;
    if p.Bare? {
      BareHasNoPercent(p.name);
    }
  }

  // The '%' at i follows a '{' at b that is closed at n - 1.
  lemma InFormat(s: string, b: nat, i: nat, n: nat)
    requires 0 < b < n - 1 < |s| && s[0] == '%' && AllAlpha(s[1..b]) && s[b] == '{' && '}' !in s[b + 1..n - 1] && s[n - 1] == '}'
    requires 0 < i < n && s[i] == '%'
    ensures InClosedFormat(s, i)
  {
    assert forall j :: 0 <= j < b - 1 ==> s[1..b][j] == s[j + 1];
    assert s[b..i] == ['{'] + s[b + 1..n - 1][..i - b - 1];
    assert OpenSince(s, i, 0, b);
    assert s[i..][n - 1 - i] == '}';
  }

  // A '%' inside a piece is in a closed format.
  lemma InsideIsClosed(s: string, i: nat)
    requires s != "" && 0 < i < |Source(First(s))| && s[i] == '%'
    ensures First(s).Braced? && InClosedFormat(s, i)
  {
    InsideIsBraced(s, i);
    BracedParts(s);
    hide First, Source, InClosedFormat, AllAlpha;
    InFormat(s, |First(s).name| + 1, i, |Source(First(s))|);
  }

  // A format opened at the start of s is closed within the first piece.
  lemma OpenedAtStart(s: string, i: nat, b: nat)
    requires OpenSince(s, i, 0, b) && '}' in s[i..]
    ensures i < |Source(First(s))|
  {
    var t := s[1..];
    assert t[..b - 1] == s[1..b] && t[b - 1] == '{' && s[1] != '%';
    AlphaRunIs(t, b - 1);
    var u := t[b..];
    var e := CloseAt(u);
    assert u == s[b + 1..];
    assert forall j :: b < j < i ==> s[j] == u[j - b - 1] && s[j] == s[b..i][j - b];
    var c :| i <= c < |s| && s[c] == '}';
    assert u[c - b - 1] == '}';
    assert e < |u| && u[e] == '}';
    assert First(s) == Braced(t[..b - 1], u[..e]);
  }

  lemma OpenHasNoClose(s: string, i: int, a: int, b: int)
    requires OpenSince(s, i, a, b)
    ensures forall j :: a <= j < i ==> s[j] != '}'
  {
    assert forall j :: a < j < b ==> s[j] == s[a + 1..b][j - a - 1];
    assert forall j :: b <= j < i ==> s[j] == s[b..i][j - b];
  }

  // A piece ends at the '}' that closes its format, so a format opened inside it is closed at its end.
  lemma OpenedInside(s: string, i: nat, a: nat, b: nat)
    requires s != "" && OpenSince(s, i, a, b) && '}' in s[i..] && a < |Source(First(s))|
    ensures i < |Source(First(s))|
  {
    if a == 0 {
      OpenedAtStart(s, i, b);
    } else {
      InsideIsClosed(s, a);
      BracedParts(s);
      OpenHasNoClose(s, i, a, b);
      hide First, Source, InClosedFormat;
    }
  }

  lemma OpenSinceShift(s: string, n: nat, i: int, a: int, b: int)
    requires n <= |s| && n <= a
    ensures OpenSince(s, i, a, b) <==> OpenSince(s[n..], i - n, a - n, b - n)
  {
    if n <= a < b < i <= |s| {
      assert s[n..][a - n + 1..b - n] == s[a + 1..b] && s[n..][b - n..i - n] == s[b..i];
    }
  }

  lemma OpensBehind(s: string, i: nat, a: nat, b: nat)
    requires s != "" && |Source(First(s))| <= i && OpenSince(s, i, a, b) && '}' in s[i..]
    ensures |Source(First(s))| <= a
  {
    hide First, Source, OpenSince;
    if a < |Source(First(s))| {
      OpenedInside(s, i, a, b);
    }
  }

  lemma ClosedFormatShift(s: string, i: nat, n: nat)
    requires s != "" && n == |Source(First(s))| <= i <= |s|
    ensures InClosedFormat(s, i) <==> InClosedFormat(s[n..], i - n)
  {
    hide First, Source, OpenSince;
    assert s[n..][i - n..] == s[i..];
    if InClosedFormat(s, i) {
      var a, b :| OpenSince(s, i, a, b);
      BoundsOfOpen(s, i, a, b);
      OpensBehind(s, i, a, b);
      OpenSinceShift(s, n, i, a, b);
    }
    if InClosedFormat(s[n..], i - n) {
      var a, b :| OpenSince(s[n..], i - n, a, b);
      OpenedBehind(s, n, i, a, b);
    }
  }

  lemma OpenedBehind(s: string, n: nat, i: int, a: int, b: int)
    requires n <= |s| && OpenSince(s[n..], i - n, a, b)
    ensures OpenSince(s, i, a + n, b + n)
  {
    OpenSinceShift(s, n, i, a + n, b + n);
  }

  lemma BoundsOfOpen(s: string, i: int, a: int, b: int)
    requires OpenSince(s, i, a, b)
    ensures 0 <= a < b < i <= |s|
  {
  }

  // Where "%%" is in relation to the first piece.
  lemma DoubledStep(s: string, i: int)
    requires s != ""
    ensures var n := |Source(First(s))|;
      DoubledAt(s, i) <==> if i < n then i == 0 && First(s) == Percent else DoubledAt(s[n..], i - n)
  {
    var n := |Source(First(s))|;
    if 0 < i < n {
      if s[i] == '%' {
        InsideIsClosed(s, i);
      }
    } else if n <= i < |s| {
      ClosedFormatShift(s, i, n);
    }
  }

  /** Whether the scanner meets a "%%" is a property of the text alone: it does iff some
      "%%" lies outside every format that is closed further on. */
  lemma {:induction false} PercentIff(s: string)
    ensures Percent in Lex(s) <==> exists i :: DoubledAt(s, i)
    decreases |s|
  {
    hide First, Source, DoubledAt;
    if s == "" {
      NoneDoubled();
    } else {
      var n := |Source(First(s))|;
      PercentIff(s[n..]);
      if First(s) == Percent {
        DoubledStep(s, 0);
      }
      if i :| DoubledAt(s, i) {
        DoubledStep(s, i);
      }
      if i :| DoubledAt(s[n..], i) {
        DoubledBounds(s[n..], i);
        DoubledStep(s, n + i);
      }
    }
  }

  lemma NoneDoubled()
    ensures forall i :: !DoubledAt("", i)
  {
  }

  lemma DoubledBounds(s: string, i: int)
    requires DoubledAt(s, i)
    ensures 0 <= i < |s| - 1
  {
  }
}
