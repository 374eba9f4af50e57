/** Which statements of an input split to themselves, read off the input. */
module SqlFixpoints {
  import opened Strings
  import opened SqlLexer
  import opened SqlGrammar
  import opened SqlSplitter
  import opened SqlLaws

  // ----- white space around a text

  lemma {:induction false} DoubledGrows(q: char, y: string, more: string)
    requires Doubled(q, y) && forall i | 0 <= i < |more| :: more[i] != q
    ensures Doubled(q, y + more)
  {
    if y == [] {
      assert y + more == more;
      DoubledWithout(q, more);
    } else if y[0] != q {
      assert (y + more)[1..] == y[1..] + more;
      DoubledGrows(q, y[1..], more);
    } else {
      assert (y + more)[2..] == y[2..] + more;
      DoubledGrows(q, y[2..], more);
    }
  }

  lemma {:induction false} DoubledWithout(q: char, y: string)
    requires forall i | 0 <= i < |y| :: y[i] != q
    ensures Doubled(q, y)
  {
    if y != [] {
      DoubledWithout(q, y[1..]);
    }
  }

  /** An opening delimiter that is never closed is not closed by white space. */
  lemma OpenGrows(t: Token, rest: string, ws: string)
    requires t.kind == DollarOpen && Shape(t, rest) && AllSpace(ws)
    ensures Shape(t, rest + ws)
  {
    var tag :| IsDollarOpen(tag, t.text, rest);
    DelimiterLetters(tag);
    var (x, all) := (t.text, rest + ws);
    forall k: nat | k <= |all| ensures !OccursAt(x, all, k) {
      if k + |x| <= |rest| {
        assert all[..|rest|] == rest;
        OccursAtPrefix(x, all, |rest|, k);
      } else if k + |x| <= |all| {
        var last := k + |x| - 1;
        assert all[last] == ws[last - |rest|];
        assert all[k..k + |x|][|x| - 1] == all[last];
      }
    }
    assert IsDollarOpen(tag, x, all);
  }

  /** An unterminated quote takes the white space in. */
  lemma QuoteGrows(t: Token, ws: string)
    requires t.kind == QuoteOpen && Shape(t, []) && AllSpace(ws)
    ensures Shape(Token(QuoteOpen, t.text + ws), [])
  {
    var x := t.text;
    DoubledGrows(x[0], x[1..], ws);
    assert (x + ws)[1..] == x[1..] + ws;
  }

  predicate Ordinary(t: Token) { !IsComment(t) && t.kind != Semicolon }

  lemma UnbrokenBegins(s: string)
    requires s != []
    ensures Unbroken(Tokens(s)) <==> Ordinary(Lex(s)) && Unbroken(Tokens(s[|Lex(s).text|..]))
  {
    TokensUnfold(s);
    hide Lex;
    var rest := Tokens(s[|Lex(s).text|..]);
    assert forall u | u in Tokens(s) :: u == Lex(s) || u in rest;
  }

  lemma OpenStays(p: string, ws: string)
    requires p != [] && Lex(p).kind == DollarOpen && AllSpace(ws)
    ensures Lex(p + ws) == Lex(p)
  {
    hide Lex, Shape, AllSpace;
    var t := Lex(p);
    var rest := p[|t.text|..];
    LexHasShape(p);
    OpenGrows(t, rest, ws);
    ShapeIsLexed(t, rest + ws);
    assert p == t.text + rest;
    assert t.text + (rest + ws) == p + ws;
  }

  lemma QuoteTakesIn(p: string, ws: string)
    requires p != [] && Lex(p).kind == QuoteOpen && AllSpace(ws)
    ensures Lex(p + ws) == Token(QuoteOpen, p + ws)
  {
    var t := Lex(p);
    LexHasShape(p);
    assert p[|t.text|..] == [] && t.text == p;
    hide Lex;
    QuoteGrows(t, ws);
    hide Shape, AllSpace;
    ShapeIsLexed(Token(QuoteOpen, p + ws), []);
    assert p + ws + [] == p + ws;
  }

  /** White space at the end of a text leaves its first token as it was, or goes into it. */
  lemma LexGrows(p: string, ws: string)
    requires p != [] && Ordinary(Lex(p)) && ws != [] && AllSpace(ws)
    ensures Lex(p + ws) == Lex(p) || Lex(p + ws) == Token(QuoteOpen, p + ws)
  {
    hide Lex;
    match Lex(p).kind
    case DollarOpen => OpenStays(p, ws);
    case QuoteOpen => QuoteTakesIn(p, ws);
    case _ => LexAppend(p, ws);
  }

  lemma {:induction false} UnbrokenSpace(ws: string)
    requires AllSpace(ws)
    ensures Unbroken(Tokens(ws))
  {
    if ws != [] {
      assert Lex(ws) == Token(Plain, ws[..1]);
      TokensUnfold(ws);
      hide Lex;
      UnbrokenSpace(ws[1..]);
    }
  }

  lemma RestGrows(p: string, ws: string)
    requires p != [] && Lex(p + ws) == Lex(p)
    ensures (p + ws)[|Lex(p).text|..] == p[|Lex(p).text|..] + ws
  {
    hide Lex;
  }

  lemma NothingAfterAll(s: string)
    requires s != [] && Lex(s) == Token(QuoteOpen, s)
    ensures Unbroken(Tokens(s))
  {
    UnbrokenBegins(s);
    hide Lex;
    NothingIsUnbroken();
    assert s[|s|..] == [];
  }

  lemma {:induction false} UnbrokenBefore(p: string, ws: string)
    requires Unbroken(Tokens(p)) && AllSpace(ws)
    ensures Unbroken(Tokens(p + ws))
  {
    hide Lex, Tokens, Unbroken, AllSpace;
    if ws == [] {
      assert p + ws == p;
    } else if p == [] {
      assert p + ws == ws;
      UnbrokenSpace(ws);
    } else {
      UnbrokenBegins(p);
      LexGrows(p, ws);
      if Lex(p + ws) == Lex(p) {
        UnbrokenBefore(p[|Lex(p).text|..], ws);
        RestGrows(p, ws);
        UnbrokenBegins(p + ws);
      } else {
        NothingAfterAll(p + ws);
      }
    }
  }

  lemma NothingIsUnbroken()
    ensures Unbroken(Tokens([]))
  {
    TokensEmpty();
  }

  lemma {:induction false} UnbrokenAfter(ws: string, p: string)
    requires Unbroken(Tokens(p)) && AllSpace(ws)
    ensures Unbroken(Tokens(ws + p))
  {
    if ws == [] {
      assert ws + p == p;
    } else {
      var s := ws + p;
      assert s[0] == ws[0] && s[1..] == ws[1..] + p;
      assert Lex(s) == Token(Plain, s[..1]);
      TokensUnfold(s);
      hide Lex;
      UnbrokenAfter(ws[1..], p);
    }
  }

  lemma TrimParts(p: string) returns (before: string, after: string)
    ensures p == before + (Trim(p) + after) && AllSpace(before) && AllSpace(after)
    ensures TrimStart(p) == Trim(p) + after
  {
    hide TrimStart, TrimEnd, IsSpace, AllSpace;
    var u := TrimStart(p);
    var t := TrimEnd(u);
    before, after := p[..|p| - |u|], u[|t|..];
    assert u == t + after && p == before + u;
  }

  /** A text is unbroken if and only if its trim is. */
  lemma UnbrokenTrim(p: string)
    ensures Unbroken(Tokens(Trim(p))) <==> Unbroken(Tokens(p))
  {
    var before, after := TrimParts(p);
    var t := Trim(p);
    hide Lex, Tokens, Unbroken, Trim, TrimStart;
    if Unbroken(Tokens(p)) {
      UnbrokenTrimStart(p);
      assert (t + after)[|t|..] == after && (t + after)[..|t|] == t;
      UnbrokenTrimEnd(t + after, |t|);
    }
    if Unbroken(Tokens(t)) {
      UnbrokenBefore(t, after);
      UnbrokenAfter(before, t + after);
    }
  }

  // ----- the statements of an input

  /** On any input: a piece gives a statement that splits to itself if and only if the piece, which has
      lost its comments, reads without any. */
  lemma PieceIsFixedExactly(p: string)
    requires !AllSpace(p)
    ensures Split(Trim(p)) == [Trim(p)] <==> Unbroken(Tokens(p))
  {
    TrimsToNothing(p);
    UnbrokenTrim(p);
    hide Split, Tokens, AllSpace;
    FixedExactly(Trim(p));
  }

  predicate SplitsToItself(st: string) { Split(st) == [st] }

  ghost predicate AllFixed(stmts: seq<string>) {
    forall i | 0 <= i < |stmts| :: SplitsToItself(stmts[i])
  }

  predicate BlankOrUnbroken(p: string) { AllSpace(p) || Unbroken(Tokens(p)) }

  /** No piece has been joined up to a new comment or terminator. */
  ghost predicate NoneJoined(ps: seq<string>) {
    forall k | 0 <= k < |ps| :: BlankOrUnbroken(ps[k])
  }

  /** So all statements of an input are fixed if and only if no piece of it has been joined up to a new
      comment or terminator by the deletion of its comments. */
  lemma AllFixedExactly(sql: string)
    ensures AllFixed(Split(sql)) <==> NoneJoined(Pieces(Tokens(sql)))
  {
    var ps := Pieces(Tokens(sql));
    assert Split(sql) == Statements(ps);
    hide Tokens, Pieces, Statements, Split, SplitsToItself, BlankOrUnbroken;
    if AllFixed(Statements(ps)) {
      forall k | 0 <= k < |ps| ensures BlankOrUnbroken(ps[k]) {
        FixedStatementsFromPiece(ps, k);
      }
    }
    if NoneJoined(ps) {
      forall i | 0 <= i < |Statements(ps)| ensures SplitsToItself(Statements(ps)[i]) {
        FixedPieceOfStatement(ps, i);
      }
    }
  }

  lemma FixedStatementsFromPiece(ps: seq<string>, k: nat)
    requires AllFixed(Statements(ps)) && k < |ps|
    ensures BlankOrUnbroken(ps[k])
  {
    hide Statements, NonBlank, Trim, Tokens, Split, Unbroken;
    if !AllSpace(ps[k]) {
      PieceGivesStatement(ps, k);
      var n := NonBlank(ps[..k]);
      assert SplitsToItself(Statements(ps)[n]) && Statements(ps)[n] == Trim(ps[k]);
      PieceIsFixedExactly(ps[k]);
      assert BlankOrUnbroken(ps[k]);
    }
  }

  lemma FixedPieceOfStatement(ps: seq<string>, i: nat)
    requires i < |Statements(ps)| && NoneJoined(ps)
    ensures SplitsToItself(Statements(ps)[i])
  {
    hide Statements, Trim, Tokens, Split, Unbroken, AllSpace;
    var p := StatementSource(ps, i);
    TrimsToNothing(p);
    PieceIsFixedExactly(p);
  }
}
