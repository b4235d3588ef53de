/** Where in the text of a pattern its pieces start, as conditions on the text alone. */
module Places {
  import opened Pattern

  // A piece is read at position i.
  predicate Starts(s: string, i: int)
    decreases |s|
  {
    s != "" && (i == 0 || (i >= |Source(First(s))| && Starts(s[|Source(First(s))|..], i - |Source(First(s))|)))
  }

  lemma StartBounds(s: string, i: int)
    requires Starts(s, i)
    ensures 0 <= i < |s|
    decreases |s|
  {
    hide First, Source;
    if i > 0 {
      StartBounds(s[|Source(First(s))|..], i - |Source(First(s))|);
    }
  }

  lemma StartsCases(s: string, i: nat)
    requires i < |s|
    ensures var n := |Source(First(s))|;
      Starts(s, i) <==> if i < n then i == 0 else Starts(s[n..], i - n)
  {
    hide First, Source;
  }

  lemma StartsFirst(s: string)
    requires s != ""
    ensures Starts(s, 0)
  {
  }

  lemma NothingOpenAtStart(s: string)
    ensures !InClosedFormat(s, 0)
  {
  }

  /** A '%' is where a piece starts iff it is outside every format that is closed further on. */
  lemma {:induction false} StartsIff(s: string, i: nat)
    requires i < |s| && s[i] == '%'
    ensures Starts(s, i) <==> !InClosedFormat(s, i)
    decreases |s|
  {
    hide First, Source, InClosedFormat, Starts;
    var n := |Source(First(s))|;
    StartsCases(s, i);
    NothingOpenAtStart(s);
    if 0 < i < n {
      InsideIsClosed(s, i);
    } else if i >= n {
      ClosedFormatShift(s, i, n);
      StartsIff(s[n..], i - n);
    }
  }

  // The piece read at position i.
  predicate PieceAt(s: string, i: int, p: Piece) {
    0 <= i < |s| && Starts(s, i) && First(s[i..]) == p
  }

  lemma PieceAtCases(s: string, i: int, p: Piece)
    requires s != ""
    ensures var n := |Source(First(s))|;
      PieceAt(s, i, p) <==> if i < n then i == 0 && p == First(s) else PieceAt(s[n..], i - n, p)
  {
    hide First, Source, Starts;
    assert s[0..] == s;
    StartsFirst(s);
    if 0 < i < |s| {
      StartsCases(s, i);
      if |Source(First(s))| <= i {
        assert s[|Source(First(s))|..][i - |Source(First(s))|..] == s[i..];
      }
    }
  }

  lemma NoPiece(p: Piece)
    ensures forall i :: !PieceAt("", i, p)
  {
  }

  lemma PieceAtBounds(s: string, i: int, p: Piece)
    requires PieceAt(s, i, p)
    ensures 0 <= i < |s|
  {
    hide First, Starts;
  }

  lemma {:induction false} PieceAtIff(s: string, p: Piece)
    ensures p in Lex(s) <==> exists i :: PieceAt(s, i, p)
    decreases |s|
  {
    hide First, Source, PieceAt, Lex;
    LexCons(s);
    if s == "" {
      NoPiece(p);
    } else {
      var n := |Source(First(s))|;
      PieceAtIff(s[n..], p);
      PieceAtCases(s, 0, p);
      if i :| PieceAt(s, i, p) {
        PieceAtCases(s, i, p);
      }
      if i :| PieceAt(s[n..], i, p) {
        PieceAtBounds(s[n..], i, p);
        PieceAtCases(s, n + i, p);
      }
    }
  }

  // A '%', a name up to b, and "{}".
  predicate EmptyName(t: string, b: int) {
    0 < b < |t| - 1 && t[0] == '%' && AllAlpha(t[1..b]) && t[b] == '{' && t[b + 1] == '}'
  }

  // A directive with an empty format "{}" at position i.
  ghost predicate EmptyAt(s: string, i: int) {
    0 <= i < |s| && !InClosedFormat(s, i) && exists b :: EmptyName(s[i..], b)
  }

  lemma FirstEmptyIff(t: string)
    requires t != ""
    ensures EmptyFormat(First(t)) <==> exists b :: EmptyName(t, b)
  {
    hide First, AllAlpha;
    if EmptyFormat(First(t)) {
      BracedParts(t);
      assert EmptyName(t, |First(t).name| + 1);
    }
    if b :| EmptyName(t, b) {
      ReadEmpty(t, b);
    }
  }

  lemma ReadEmpty(t: string, b: int)
    requires EmptyName(t, b)
    ensures First(t) == Braced(t[1..b], "")
  {
    var p := Braced(t[1..b], "");
    assert t == Source(p) + t[b + 2..];
    FirstIffFits(p, t[b + 2..]);
  }

  lemma StartsWithPercent(s: string, i: int)
    ensures EmptyAt(s, i) ==> s[i] == '%'
    ensures EndsFrom(s, i) ==> s[i] == '%'
  {
    hide InClosedFormat;
  }

  lemma DirectiveHead(t: string)
    requires t != "" && IsDirective(First(t))
    ensures t[0] == '%'
  {
  }

  lemma EmptyAtIff(s: string, i: int)
    ensures EmptyAt(s, i) <==> 0 <= i < |s| && Starts(s, i) && EmptyFormat(First(s[i..]))
  {
    StartsWithPercent(s, i);
    if 0 <= i < |s| {
      FirstEmptyIff(s[i..]);
      if EmptyFormat(First(s[i..])) {
        DirectiveHead(s[i..]);
      }
      if s[i] == '%' {
        StartsIff(s, i);
      }
    }
    hide Starts, InClosedFormat, First, EmptyName;
  }

  /** Some directive has an empty format iff the text has a "%name{}" outside closed formats. */
  lemma EmptyFormatIff(s: string)
    ensures (exists p :: p in Lex(s) && EmptyFormat(p)) <==> exists i :: EmptyAt(s, i)
  {
    if p :| p in Lex(s) && EmptyFormat(p) {
      PieceAtIff(s, p);
      var i :| PieceAt(s, i, p);
      EmptyAtIff(s, i);
    }
    if i :| EmptyAt(s, i) {
      EmptyAtIff(s, i);
      PieceAtIff(s, First(s[i..]));
      assert PieceAt(s, i, First(s[i..]));
    }
  }

  // A '%', a name up to b, and a format that is closed by the last character.
  predicate ClosedAtEnd(t: string, b: int) {
    0 < b < |t| - 1 && t[0] == '%' && AllAlpha(t[1..b]) && t[b] == '{' && t[|t| - 1] == '}' && '}' !in t[b..|t| - 1]
  }

  // A directive that reaches to the end of the text at position i.
  ghost predicate EndsFrom(s: string, i: int) {
    0 <= i < |s| && s[i] == '%' && !InClosedFormat(s, i) && (AllAlpha(s[i + 1..]) || exists b :: ClosedAtEnd(s[i..], b))
  }

  lemma FirstIsAll(t: string)
    requires t != "" && IsDirective(First(t)) && |Source(First(t))| == |t|
    ensures t[0] == '%' && (AllAlpha(t[1..]) || exists b :: ClosedAtEnd(t, b))
  {
    hide First, AllAlpha;
    var p := First(t);
    if p.Bare? {
      assert t == Source(p) + "" && t[1..] == p.name;
      FirstIffFits(p, "");
    } else {
      BracedParts(t);
      assert t[|p.name| + 1..|t| - 1] == ['{'] + p.fmt;
      assert ClosedAtEnd(t, |p.name| + 1);
    }
  }

  lemma AllIsFirst(t: string)
    requires t != "" && t[0] == '%' && (AllAlpha(t[1..]) || exists b :: ClosedAtEnd(t, b))
    ensures IsDirective(First(t)) && |Source(First(t))| == |t|
  {
    if AllAlpha(t[1..]) {
      var q := Bare(t[1..]);
      assert t == Source(q) + "";
      FirstIffFits(q, "");
    } else {
      var b :| ClosedAtEnd(t, b);
      var q := Braced(t[1..b], t[b + 1..|t| - 1]);
      assert t[b..|t| - 1] == ['{'] + q.fmt;
      assert t == Source(q) + "";
      FirstIffFits(q, "");
    }
  }

  lemma EndsFromIff(s: string, i: int)
    ensures EndsFrom(s, i) <==> 0 <= i < |s| && Starts(s, i) && IsDirective(First(s[i..])) && i + |Source(First(s[i..]))| == |s|
  {
    if 0 <= i < |s| {
      var t := s[i..];
      assert s[i + 1..] == t[1..];
      if s[i] == '%' {
        StartsIff(s, i);
      }
      if EndsFrom(s, i) {
        AllIsFirst(t);
      }
      if IsDirective(First(t)) && |Source(First(t))| == |t| {
        FirstIsAll(t);
      }
    }
    hide Starts, InClosedFormat, First, Source, ClosedAtEnd, AllAlpha;
  }

  // The piece read at i reaches to the end.
  predicate LastFrom(s: string, i: int) {
    0 <= i < |s| && Starts(s, i) && i + |Source(First(s[i..]))| == |s|
  }

  lemma LastFromCases(s: string, i: int)
    requires s != ""
    ensures var n := |Source(First(s))|;
      LastFrom(s, i) <==> if i <= 0 then i == 0 && n == |s| else LastFrom(s[n..], i - n)
  {
    var n := |Source(First(s))|;
    hide First, Source, Starts;
    assert s[0..] == s;
    StartsFirst(s);
    if 0 < i < |s| {
      StartsCases(s, i);
      if n <= i {
        assert s[n..][i - n..] == s[i..];
      }
    }
  }

  lemma {:induction false} LastPiece(s: string) returns (i: nat)
    requires s != ""
    ensures Lex(s) != [] && LastFrom(s, i) && First(s[i..]) == Lex(s)[|Lex(s)| - 1]
    decreases |s|
  {
    hide First, Source, LastFrom, Lex;
    var n := |Source(First(s))|;
    var rest := s[n..];
    LexCons(s);
    LexCons(rest);
    if rest == "" {
      i := 0;
      LastFromCases(s, 0);
      assert s[0..] == s;
    } else {
      var k := LastPiece(rest);
      LastFromBounds(rest, k);
      i := n + k;
      assert s[i..] == rest[k..];
      LastFromCases(s, i);
    }
  }

  // Only one piece reaches to the end.
  lemma {:induction false} LastFromOnce(s: string, i: int, j: int)
    requires LastFrom(s, i) && LastFrom(s, j)
    ensures i == j
    decreases |s|
  {
    hide First, Source, LastFrom;
    LastFromBounds(s, i);
    LastFromBounds(s, j);
    LastFromCases(s, i);
    LastFromCases(s, j);
    var n := |Source(First(s))|;
    if i == 0 {
      BeyondNothing(s[n..], j - n);
    } else if j == 0 {
      BeyondNothing(s[n..], i - n);
    } else {
      LastFromOnce(s[n..], i - n, j - n);
    }
  }

  lemma BeyondNothing(s: string, i: int)
    requires s == ""
    ensures !LastFrom(s, i)
  {
  }

  lemma LastFromBounds(s: string, i: int)
    requires LastFrom(s, i)
    ensures 0 <= i < |s|
  {
    hide First, Source, Starts;
  }

  lemma EndsFromLast(s: string, i: int)
    ensures EndsFrom(s, i) <==> LastFrom(s, i) && IsDirective(First(s[i..]))
  {
    EndsFromIff(s, i);
    hide First, Source, Starts, EndsFrom;
  }

  /** The last piece is a directive iff, in the text, a directive outside closed formats
      reaches to the end. */
  lemma EndsInDirectiveIff(s: string)
    requires s != ""
    ensures Lex(s) != [] && (IsDirective(Lex(s)[|Lex(s)| - 1]) <==> exists i :: EndsFrom(s, i))
  {
    hide First, Lex, LastFrom, EndsFrom;
    var i := LastPiece(s);
    EndsFromLast(s, i);
    if j :| EndsFrom(s, j) {
      EndsFromLast(s, j);
      LastFromOnce(s, i, j);
    }
  }
}
