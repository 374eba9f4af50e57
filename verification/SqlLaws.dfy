/** Laws of the migration splitter: what the tokens and pieces add up to, splitting undoes
    joining, and when a statement splits to itself. */
module SqlLaws {
  import opened Strings
  import opened SqlLexer
  import opened SqlGrammar
  import opened SqlSplitter

  // ----- what the tokens and the pieces add up to

  lemma {:induction false} TokensTile(s: string)
    ensures TextOf(Tokens(s)) == s
  {
    hide Lex;
    if s != [] {
      var t := Lex(s);
      var rest := s[|t.text|..];
      TokensTile(rest);
      assert t.text + rest == s;
    }
  }

  /** The tokens that are not comments. */
  function Visible(ts: seq<Token>): seq<Token> {
    if ts == [] then [] else (if IsComment(ts[0]) then [] else [ts[0]]) + Visible(ts[1..])
  }

  ghost predicate LexedBySemicolon(ts: seq<Token>) {
    forall t | t in ts && t.kind == Semicolon :: t.text == ";"
  }

  /** Joining the untrimmed pieces with `;` gives back the input with exactly its comment
      tokens deleted. */
  lemma {:induction false} PiecesJoin(ts: seq<Token>)
    requires LexedBySemicolon(ts)
    ensures Join(Pieces(ts), ";") == TextOf(Visible(ts))
  {
    if ts != [] {
      var t, rest := ts[0], ts[1..];
      PiecesJoin(rest);
      var ps := Pieces(rest);
      var vs := Visible(rest);
      if IsComment(t) {
        assert Visible(ts) == vs;
      } else {
        assert Visible(ts) == [t] + vs && TextOf([t] + vs) == t.text + TextOf(vs);
        if t.kind == Semicolon {
          JoinCons("", ps, ";");
          assert "" + (";" + Join(ps, ";")) == ";" + Join(ps, ";");
        } else {
          JoinGlue(t.text, ps);
        }
      }
    }
  }

  lemma JoinCons(p: string, tail: seq<string>, sep: string)
    requires |tail| >= 1
    ensures Join([p] + tail, sep) == p + (sep + Join(tail, sep))
  {
    var all := [p] + tail;
    assert all[1..] == tail && all[0] == p;
    assert p + sep + Join(tail, sep) == p + (sep + Join(tail, sep));
  }

  lemma Associate(a: string, b: string, c: string)
    ensures a + b + c == a + (b + c)
  {}

  lemma JoinGlue(front: string, ps: seq<string>)
    requires |ps| >= 1
    ensures Join(Glue(front, ps), ";") == front + Join(ps, ";")
  {
    var p, tail := ps[0], ps[1..];
    assert ps == [p] + tail;
    if tail == [] {
      assert Glue(front, ps) == [front + p];
      assert ps == [p];
    } else {
      hide Join;
      var u := ";" + Join(tail, ";");
      JoinCons(p, tail, ";");
      JoinCons(front + p, tail, ";");
      Associate(front, p, u);
    }
  }

  lemma {:induction false} SemicolonTexts(s: string)
    ensures LexedBySemicolon(Tokens(s))
  {
    if s != [] {
      var t := Lex(s);
      SemicolonTexts(s[|t.text|..]);
      if t.kind == Semicolon {
        LexHasShape(s);
      }
    }
  }

  /** How many of the pieces are not blank. */
  function NonBlank(ps: seq<string>): nat {
    if ps == [] then 0 else (if AllSpace(ps[0]) then 0 else 1) + NonBlank(ps[1..])
  }

  /** The tokens tile the input; the pieces between semicolons are the input without its comments;
      and the statements are the trims of the pieces that are not blank, in order: there are as many,
      and each such piece gives the statement with the number of such pieces before it. */
  lemma SplitDeletesExactlyComments(sql: string)
    ensures TextOf(Tokens(sql)) == sql
    ensures Join(Pieces(Tokens(sql)), ";") == TextOf(Visible(Tokens(sql)))
    ensures var ps := Pieces(Tokens(sql));
            && |Split(sql)| == NonBlank(ps)
            && forall k | 0 <= k < |ps| && !AllSpace(ps[k]) ::
                 NonBlank(ps[..k]) < NonBlank(ps) && Split(sql)[NonBlank(ps[..k])] == Trim(ps[k])
  {
    TokensTile(sql);
    SemicolonTexts(sql);
    PiecesJoin(Tokens(sql));
    var ps := Pieces(Tokens(sql));
    hide Tokens, Pieces, Statements, Trim, NonBlank;
    OneStatementEach(ps);
    forall k | 0 <= k < |ps| && !AllSpace(ps[k])
      ensures NonBlank(ps[..k]) < NonBlank(ps) && Split(sql)[NonBlank(ps[..k])] == Trim(ps[k])
    {
      PieceGivesStatement(ps, k);
    }
  }

  lemma TrimsToNothing(p: string)
    ensures Trim(p) == [] <==> AllSpace(p)
  {
    var t := TrimStart(p);
    if Trim(p) == [] {
      assert AllSpace(t[0..]) && t[0..] == t;
      assert p == p[..|p| - |t|] + t;
    } else {
      assert !IsSpace(t[0]) && t[0] == p[|p| - |t|];
    }
  }

  lemma {:induction false} OneStatementEach(ps: seq<string>)
    ensures |Statements(ps)| == NonBlank(ps)
  {
    if ps != [] {
      TrimsToNothing(ps[0]);
      hide Trim, AllSpace;
      OneStatementEach(ps[1..]);
    }
  }

  function Kept(piece: string): seq<string> {
    if AllSpace(piece) then [] else [Trim(piece)]
  }

  lemma StatementsBegin(ps: seq<string>)
    requires ps != []
    ensures Statements(ps) == Kept(ps[0]) + Statements(ps[1..])
  {
    TrimsToNothing(ps[0]);
    hide Trim, AllSpace;
  }

  lemma NonBlankBegins(ps: seq<string>, k: nat)
    requires 0 < k <= |ps|
    ensures NonBlank(ps[..k]) == |Kept(ps[0])| + NonBlank(ps[1..][..k - 1])
  {
    hide Trim, AllSpace;
    var front := ps[..k];
    assert front[1..] == ps[1..][..k - 1] && front[0] == ps[0];
  }

  lemma Behind<T>(a: seq<T>, b: seq<T>, i: nat)
    requires i < |b|
    ensures |a| + i < |a + b| && (a + b)[|a| + i] == b[i]
  {}

  lemma FirstPieceGivesStatement(ps: seq<string>)
    requires ps != [] && !AllSpace(ps[0])
    ensures NonBlank(ps[..0]) == 0 < |Statements(ps)| && Statements(ps)[0] == Trim(ps[0])
  {
    StatementsBegin(ps);
    hide Trim, AllSpace, Statements;
  }

  lemma {:induction false} PieceGivesStatement(ps: seq<string>, k: nat)
    requires k < |ps| && !AllSpace(ps[k])
    ensures NonBlank(ps[..k]) < |Statements(ps)| && Statements(ps)[NonBlank(ps[..k])] == Trim(ps[k])
  {
    hide Trim, AllSpace, Statements, NonBlank, Kept;
    if k == 0 {
      FirstPieceGivesStatement(ps);
    } else {
      var rest := ps[1..];
      assert rest[k - 1] == ps[k];
      PieceGivesStatement(rest, k - 1);
      StatementsBegin(ps);
      NonBlankBegins(ps, k);
      Behind(Kept(ps[0]), Statements(rest), NonBlank(rest[..k - 1]));
    }
  }

  /** Every statement is the trim of one of the pieces. */
  lemma {:induction false} StatementSource(ps: seq<string>, i: nat) returns (p: string)
    requires i < |Statements(ps)|
    ensures p in ps && Statements(ps)[i] == Trim(p) != []
  {
    hide Trim;
    var n := |Keep(ps[0])|;
    if i < n {
      p := ps[0];
    } else {
      p := StatementSource(ps[1..], i - n);
    }
  }

  // ----- lexing a shorter or a longer text

  predicate IsClosed(t: Token) {
    t.kind == Plain || t.kind == Quoted || t.kind == DollarQuoted
  }

  /** No tag, comment mark or doubled quote goes on with such a character. */
  predicate Breaks(c: char) { c == ';' || IsSpace(c) }

  lemma OpensDollarGrows(s: string, more: string)
    ensures OpensDollar(s) ==> OpensDollar(s + more)
    ensures OpensDollar(s + more) && s != [] && more != [] && Breaks(more[0]) ==> OpensDollar(s)
  {
    if OpensDollar(s) {
      var tag :| IsTag(tag) && Delimiter(tag) <= s;
      assert Delimiter(tag) <= s + more;
    }
    if OpensDollar(s + more) && s != [] && more != [] && Breaks(more[0]) {
      var tag :| IsTag(tag) && Delimiter(tag) <= s + more;
      var d := Delimiter(tag);
      DelimiterLetters(tag);
      assert (s + more)[|s|] == more[0];
      assert forall i | 0 <= i < |d| :: (s + more)[i] == d[i];
      assert d == (s + more)[..|d|] == s[..|d|];
    }
  }

  lemma DelimiterLetters(tag: string)
    requires IsTag(tag)
    ensures var d := Delimiter(tag); d[|d| - 1] == '$' && forall i | 0 <= i < |d| :: !Breaks(d[i])
  {
    var d := Delimiter(tag);
    forall i | 0 <= i < |d| ensures !Breaks(d[i]) {
      assert d[i] == '$' || d[i] == tag[i - 1];
    }
  }

  lemma ShapeCutOpen(t: Token, rest: string, m: nat)
    requires t.kind == DollarOpen && Shape(t, rest) && m <= |rest|
    ensures Shape(t, rest[..m])
  {
    var tag :| IsDollarOpen(tag, t.text, rest);
    forall j: nat | j <= m ensures !OccursAt(t.text, rest[..m], j) {
      if j + |t.text| <= m {
        OccursAtPrefix(t.text, rest, m, j);
      }
    }
    assert IsDollarOpen(tag, t.text, rest[..m]);
  }

  lemma ShapeCutPlain(t: Token, rest: string, m: nat)
    requires t.kind == Plain && Shape(t, rest) && m <= |rest|
    ensures Shape(t, rest[..m])
  {
    var x, less := t.text, rest[..m];
    assert x + less + rest[m..] == x + rest;
    OpensDollarGrows(x + less, rest[m..]);
  }

  lemma ShapeCut(t: Token, rest: string, m: nat)
    requires Shape(t, rest) && !IsComment(t) && m <= |rest|
    ensures Shape(t, rest[..m])
  {
    if t.kind == DollarOpen {
      ShapeCutOpen(t, rest, m);
    } else if t.kind == Plain {
      ShapeCutPlain(t, rest, m);
    } else if t.kind == Quoted {
      assert m > 0 ==> rest[..m][0] == rest[0];
    }
  }

  /** Cutting the input anywhere after the first token leaves that token as it was. */
  lemma LexCut(s: string, k: nat)
    requires s != [] && |Lex(s).text| <= k <= |s| && !IsComment(Lex(s))
    ensures Lex(s[..k]) == Lex(s)
  {
    hide Lex, Shape;
    var t := Lex(s);
    var n := |t.text|;
    LexHasShape(s);
    ShapeCut(t, s[n..], k - n);
    ShapeIsLexed(t, s[n..][..k - n]);
    assert t.text + s[n..][..k - n] == s[..k];
  }

  lemma ShapeGrowsPlain(t: Token, rest: string, more: string)
    requires t.kind == Plain && Shape(t, rest) && more != [] && Breaks(more[0])
    ensures Shape(t, rest + more)
  {
    var x := t.text;
    assert x + (rest + more) == (x + rest) + more;
    OpensDollarGrows(x + rest, more);
    var all := x + rest + more;
    if rest == [] {
      assert all[1] == more[0];
    } else {
      assert all[0] == (x + rest)[0] && all[1] == (x + rest)[1];
    }
  }

  lemma ShapeGrows(t: Token, rest: string, more: string)
    requires Shape(t, rest) && IsClosed(t) && more != [] && Breaks(more[0])
    ensures Shape(t, rest + more)
  {
    if t.kind == Plain {
      ShapeGrowsPlain(t, rest, more);
    } else if t.kind == Quoted {
      assert (rest + more)[0] == if rest == [] then more[0] else rest[0];
    }
  }

  /** Adding a semicolon or white space, and more text, after a closed token leaves that token as it was. */
  lemma LexAppend(a: string, more: string)
    requires a != [] && IsClosed(Lex(a)) && more != [] && Breaks(more[0])
    ensures Lex(a + more) == Lex(a)
  {
    hide Lex, Shape;
    var t := Lex(a);
    var rest := a[|t.text|..];
    LexHasShape(a);
    ShapeGrows(t, rest, more);
    ShapeIsLexed(t, rest + more);
    assert t.text + (rest + more) == a + more;
  }

  // ----- splitting undoes joining

  /** Trimmed and non-empty, comment-free, without a top-level semicolon, and with every quote
      and dollar tag closed. */
  predicate IsStatement(st: string) {
    st != [] && Trimmed(st) && forall t | t in Tokens(st) :: IsClosed(t)
  }

  lemma {:induction false} TokensAppend(a: string, more: string)
    requires forall t | t in Tokens(a) :: IsClosed(t)
    requires more != [] && Breaks(more[0])
    ensures Tokens(a + more) == Tokens(a) + Tokens(more)
  {
    hide Tokens, Lex;
    if a == [] {
      TokensEmpty();
      assert a + more == more;
    } else {
      TokensUnfold(a);
      var n := |Lex(a).text|;
      LexAppend(a, more);
      TokensAppend(a[n..], more);
      TokensUnfold(a + more);
      assert (a + more)[n..] == a[n..] + more;
    }
  }

  lemma TokensUnfold(s: string)
    requires s != []
    ensures var t := Lex(s); Tokens(s) == [t] + Tokens(s[|t.text|..])
    ensures Lex(s) in Tokens(s) && forall u | u in Tokens(s[|Lex(s).text|..]) :: u in Tokens(s)
  {}

  lemma TokensOfTerminated(b: string)
    ensures Tokens(";" + b) == [Token(Semicolon, ";")] + Tokens(b)
  {
    var s := ";" + b;
    assert s[..1] == ";" && s[1..] == b;
    assert Lex(s) == Token(Semicolon, ";");
  }

  lemma {:induction false} PiecesOfClosed(ts: seq<Token>, more: seq<Token>)
    requires forall t | t in ts :: IsClosed(t)
    ensures Pieces(ts + more) == Glue(TextOf(ts), Pieces(more))
  {
    if ts == [] {
      assert ts + more == more;
      GlueNothing(Pieces(more));
    } else {
      var t, rest := ts[0], ts[1..];
      PiecesOfClosed(rest, more);
      assert t in ts && ts + more == [t] + (rest + more);
      Associate(t.text, TextOf(rest), Pieces(more)[0]);
    }
  }

  lemma SplitNothing()
    ensures Split("") == []
  {
    assert Trim("") == "";
    assert Statements([""]) == Keep("") + Statements([]);
  }

  lemma {:induction false} SplitUndoesJoin(stmts: seq<string>)
    requires forall st | st in stmts :: IsStatement(st)
    ensures Split(Join(stmts, ";")) == stmts
  {
    hide Lex, Tokens, Trim, Trimmed;
    if stmts == [] {
      SplitNothing();
    } else {
      var a := stmts[0];
      assert IsStatement(a);
      var ts := Tokens(a);
      TokensTile(a);
      TrimOfTrimmed(a);
      if |stmts| == 1 {
        PiecesOfClosed(ts, []);
        assert ts + [] == ts;
        assert a + "" == a && Pieces(ts) == [a];
        assert Statements([a]) == Keep(a) + Statements([]);
      } else {
        var b := Join(stmts[1..], ";");
        SplitUndoesJoin(stmts[1..]);
        assert a + ";" + b == a + (";" + b);
        TokensAppend(a, ";" + b);
        TokensOfTerminated(b);
        var more := [Token(Semicolon, ";")] + Tokens(b);
        PiecesOfClosed(ts, more);
        assert Pieces(more) == [""] + Pieces(Tokens(b));
        assert a + "" == a && Pieces(Tokens(Join(stmts, ";"))) == [a] + Pieces(Tokens(b));
      }
    }
  }

  // ----- statements that split to themselves

  /** No comment and no terminator: the whole text is one piece. */
  predicate Unbroken(ts: seq<Token>) {
    forall t | t in ts :: !IsComment(t) && t.kind != Semicolon
  }

  predicate CommentFree(sql: string) {
    forall t | t in Tokens(sql) :: !IsComment(t)
  }

  lemma {:induction false} UnbrokenPieces(ts: seq<Token>)
    requires Unbroken(ts)
    ensures Pieces(ts) == [TextOf(ts)]
  {
    if ts != [] {
      UnbrokenPieces(ts[1..]);
    }
  }

  lemma {:induction false} DoubledCut(q: char, y: string, m: nat)
    requires Doubled(q, y) && m <= |y| && forall i | m <= i < |y| :: y[i] != q
    ensures Doubled(q, y[..m])
  {
    if m == 0 {
      assert y[..0] == [];
    } else if y[0] != q {
      DoubledCut(q, y[1..], m - 1);
      assert y[..m][1..] == y[1..][..m - 1];
    } else {
      assert y[1] == q && m >= 2;
      DoubledCut(q, y[2..], m - 2);
      assert y[..m][2..] == y[2..][..m - 2];
    }
  }

  /** Closed tokens and opening delimiters do not end in white space. */
  lemma DollarEnds(t: Token, rest: string)
    requires Shape(t, rest) && (t.kind == DollarQuoted || t.kind == DollarOpen)
    ensures t.text != [] && t.text[|t.text| - 1] == '$'
  {
    var x := t.text;
    if t.kind == DollarQuoted {
      var tag :| IsDollarBlock(tag, x);
      DelimiterLetters(tag);
      var d := Delimiter(tag);
      var y := x[|d|..];
      assert y[|y| - |d|..] == d;
      assert y[|y| - 1] == y[|y| - |d|..][|d| - 1];
    } else {
      var tag :| IsDollarOpen(tag, x, rest);
      DelimiterLetters(tag);
    }
  }

  lemma OpenQuoteCut(p: string, k: nat)
    requires 0 < k <= |p| && Shape(Token(QuoteOpen, p), []) && AllSpace(p[k..])
    ensures Shape(Token(QuoteOpen, p[..k]), [])
  {
    var q := p[0];
    forall i | k - 1 <= i < |p| - 1 ensures p[1..][i] != q {
      assert p[1..][i] == p[k..][i + 1 - k];
    }
    DoubledCut(q, p[1..], k - 1);
    assert p[..k][1..] == p[1..][..k - 1];
  }

  /** Only an unterminated quote can lose its tail to trimming, and it stays unterminated. */
  lemma LexTrimmed(p: string, k: nat)
    requires p != [] && 0 < k < |Lex(p).text| && AllSpace(p[k..])
    requires !IsComment(Lex(p))
    ensures Lex(p[..k]) == Token(QuoteOpen, p[..k])
  {
    LexHasShape(p);
    hide Lex;
    var t := Lex(p);
    var n := |t.text|;
    assert IsSpace(t.text[n - 1]) by { assert t.text[n - 1] == p[k..][n - 1 - k]; }
    if t.kind == DollarQuoted || t.kind == DollarOpen {
      DollarEnds(t, p[n..]);
    }
    assert p[n..] == [] && t.text == p;
    OpenQuoteCut(p, k);
    hide Shape;
    assert p[..k] + [] == p[..k];
    ShapeIsLexed(Token(QuoteOpen, p[..k]), []);
  }

  lemma {:induction false} UnbrokenTrimEnd(p: string, k: nat)
    requires k <= |p| && Unbroken(Tokens(p)) && AllSpace(p[k..])
    ensures Unbroken(Tokens(p[..k]))
  {
    hide Lex;
    if p != [] && k > 0 {
      var t := Lex(p);
      var n := |t.text|;
      var rest := Tokens(p[n..]);
      assert Tokens(p) == [t] + rest;
      assert t in Tokens(p) && forall u | u in rest :: u in Tokens(p);
      if n <= k {
        LexCut(p, k);
        assert p[..k][n..] == p[n..][..k - n];
        assert p[n..][k - n..] == p[k..];
        UnbrokenTrimEnd(p[n..], k - n);
      } else {
        LexTrimmed(p, k);
        assert p[..k][k..] == [];
        assert Tokens(p[..k]) == [Token(QuoteOpen, p[..k])] + Tokens([]);
      }
    } else {
      assert p[..k] == [];
    }
  }

  lemma {:induction false} UnbrokenTrimStart(p: string)
    requires Unbroken(Tokens(p))
    ensures Unbroken(Tokens(TrimStart(p)))
  {
    if p != [] && IsSpace(p[0]) {
      assert Lex(p) == Token(Plain, p[..1]);
      hide Lex;
      assert Tokens(p) == [Token(Plain, p[..1])] + Tokens(p[1..]);
      assert forall u | u in Tokens(p[1..]) :: u in Tokens(p);
      UnbrokenTrimStart(p[1..]);
    }
  }

  lemma UnbrokenSplits(p: string)
    requires Unbroken(Tokens(p)) && Trim(p) != []
    ensures Split(Trim(p)) == [Trim(p)]
  {
    hide Lex;
    var u := TrimStart(p);
    UnbrokenTrimStart(p);
    var t := TrimEnd(u);
    UnbrokenTrimEnd(u, |t|);
    assert Unbroken(Tokens(t));
    UnbrokenPieces(Tokens(t));
    TokensTile(t);
    TrimOfTrimmed(t);
    assert Statements([t]) == Keep(t) + Statements([]);
  }

  lemma UnbrokenPrefix(s: string, next: string)
    requires s != [] && !IsComment(Lex(s)) && Lex(s).kind != Semicolon
    requires next <= s[|Lex(s).text|..] && Unbroken(Tokens(next))
    ensures var p := Lex(s).text + next; p <= s && Unbroken(Tokens(p))
  {
    hide Lex;
    var t := Lex(s);
    var p := t.text + next;
    assert s == t.text + s[|t.text|..];
    assert p == s[..|p|];
    LexCut(s, |p|);
    assert p[|t.text|..] == next;
    assert Tokens(p) == [t] + Tokens(next);
  }

  /** Without comments the pieces are stretches of the input, and each of them lexes as it did
      in place. */
  lemma {:induction false} PiecesUnbroken(s: string)
    requires CommentFree(s)
    ensures var ps := Pieces(Tokens(s)); ps[0] <= s && forall p | p in ps :: Unbroken(Tokens(p))
  {
    hide Lex;
    if s != [] {
      var t := Lex(s);
      var n := |t.text|;
      var ts := Tokens(s[n..]);
      assert Tokens(s) == [t] + ts;
      assert t in Tokens(s) && forall u | u in ts :: u in Tokens(s);
      PiecesUnbroken(s[n..]);
      var tail := Pieces(ts);
      assert tail[0] in tail && forall p | p in tail[1..] :: p in tail;
      if t.kind != Semicolon {
        UnbrokenPrefix(s, tail[0]);
        assert Pieces(Tokens(s)) == [t.text + tail[0]] + tail[1..];
      } else {
        assert Pieces(Tokens(s)) == [""] + tail;
      }
    }
  }

  /** On every comment-free input, even with unterminated quotes or dollar tags, each returned
      statement splits to exactly itself. */
  lemma StatementsAreFixed(sql: string)
    requires CommentFree(sql)
    ensures forall st | st in Split(sql) :: Split(st) == [st]
  {
    hide Lex, Tokens, Pieces, Trim, Statements, Unbroken;
    PiecesUnbroken(sql);
    var ps := Pieces(Tokens(sql));
    forall st | st in Split(sql) ensures Split(st) == [st] {
      var i :| 0 <= i < |Split(sql)| && Split(sql)[i] == st;
      var p := StatementSource(ps, i);
      UnbrokenSplits(p);
    }
  }

  // ----- which texts split to themselves

  lemma {:induction false} JoinIsLong(ps: seq<string>, p: string)
    requires p in ps
    ensures |Join(ps, ";")| >= |p| + |ps| - 1
  {
    if |ps| > 1 {
      if p in ps[1..] {
        JoinIsLong(ps[1..], p);
      } else {
        JoinIsLong(ps[1..], ps[1]);
      }
    }
  }

  ghost predicate AllVisible(ts: seq<Token>) {
    forall t | t in ts :: !IsComment(t)
  }

  lemma {:induction false} VisibleIsShorter(ts: seq<Token>)
    requires forall t | t in ts :: t.text != []
    ensures |TextOf(Visible(ts))| <= |TextOf(ts)|
    ensures !AllVisible(ts) ==> |TextOf(Visible(ts))| < |TextOf(ts)|
  {
    if ts != [] {
      var (first, rest) := (ts[0], ts[1..]);
      assert first in ts && forall t | t in rest :: t in ts;
      assert (forall t | t in ts :: t == first || t in rest);
      VisibleIsShorter(rest);
      var shown := Visible(rest);
      assert |TextOf(ts)| == |first.text| + |TextOf(rest)|;
      if IsComment(first) {
        assert Visible(ts) == [] + shown == shown;
      } else {
        assert Visible(ts) == [first] + shown;
        OneMoreText(first, shown);
      }
    }
  }

  lemma OneMoreText(t: Token, ts: seq<Token>)
    ensures TextOf([t] + ts) == t.text + TextOf(ts)
  {
    assert ([t] + ts)[1..] == ts;
  }

  lemma {:induction false} TokensHaveText(s: string)
    ensures forall t | t in Tokens(s) :: t.text != []
  {
    if s != [] {
      hide Lex;
      TokensHaveText(s[|Lex(s).text|..]);
    }
  }

  lemma {:induction false} SemicolonsMakePieces(ts: seq<Token>, t: Token)
    requires t in ts && t.kind == Semicolon
    ensures |Pieces(ts)| > 1
  {
    if ts[0] != t {
      assert t in ts[1..];
      SemicolonsMakePieces(ts[1..], t);
    }
  }

  /** On any input: a trimmed text splits to exactly itself if and only if it has no comment and no
      semicolon of its own. So of the statements of an input with comments, exactly those are fixed
      in which deleting a comment has not made a new comment or terminator. */
  lemma FixedExactly(st: string)
    requires st != [] && Trimmed(st)
    ensures Split(st) == [st] <==> Unbroken(Tokens(st))
  {
    var ts := Tokens(st);
    if Unbroken(ts) {
      TrimOfTrimmed(st);
      UnbrokenSplits(st);
    } else if Split(st) == [st] {
      hide Lex, Tokens, Trim, Statements;
      var p := StatementSource(Pieces(ts), 0);
      TrimIsShorter(p);
      TokensTile(st);
      TokensHaveText(st);
      SemicolonTexts(st);
      PiecesJoin(ts);
      JoinIsLong(Pieces(ts), p);
      VisibleIsShorter(ts);
      assert AllVisible(ts);
      var t :| t in ts && t.kind == Semicolon;
      SemicolonsMakePieces(ts, t);
      assert false;
    }
  }

  lemma TrimIsShorter(p: string)
    ensures |Trim(p)| <= |p|
  {}

  lemma TokensStep(t: Token, rest: string)
    requires t.text != [] && Shape(t, rest)
    ensures Tokens(t.text + rest) == [t] + Tokens(rest)
  {
    ShapeIsLexed(t, rest);
    assert (t.text + rest)[|t.text|..] == rest;
  }

  lemma TokensEmpty()
    ensures Tokens("") == []
  {}

  lemma NotDollar(s: string)
    requires s != [] && s[0] != '$'
    ensures !OpensDollar(s)
  {
    OpensDollarExact(s);
  }

  lemma NotComment(s: string)
    requires s != [] && (|s| > 1 ==> s[1] != '-' && s[1] != '*')
    ensures !("--" <= s) && !("/*" <= s)
  {
    assert "--"[1] == '-' && "/*"[1] == '*';
  }

  lemma CommentExample()
    ensures Tokens("-/**/-x") == [Token(Plain, "-"), Token(BlockComment, "/**/")] + Tokens("-x")
    ensures Tokens("-x") == [Token(Plain, "-"), Token(Plain, "x")]
  {
    hide Tokens;
    var minus, x := Token(Plain, "-"), Token(Plain, "x");
    var comment := Token(BlockComment, "/**/");
    NotComment("-/**/-x");
    NotComment("-x");
    NotComment("x");
    NotDollar("-/**/-x");
    NotDollar("-x");
    NotDollar("x");
    assert "-" + "/**/-x" == "-/**/-x" && "/**/" + "-x" == "/**/-x" && "-" + "x" == "-x" && "x" + "" == "x";
    TokensStep(minus, "/**/-x");
    TokensStep(minus, "x");
    TokensStep(x, "");
    TokensEmpty();
    var y := comment.text[2..];
    assert y == "**/"[1..] + "" || y == "*/";
    TokensStep(comment, "-x");
  }

  lemma LineExample()
    ensures Tokens("--x") == [Token(LineComment, "--x")]
  {
    var t := Token(LineComment, "--x");
    TokensEmpty();
    hide Tokens;
    assert "--x"[2..] == "x";
    TokensStep(t, "");
    assert "--x" + "" == "--x";
  }

  lemma PiecesOfExample()
    ensures Pieces([Token(Plain, "-"), Token(BlockComment, "/**/")] + [Token(Plain, "-"), Token(Plain, "x")]) == ["--x"]
  {
    var p, c, x := Token(Plain, "-"), Token(BlockComment, "/**/"), Token(Plain, "x");
    assert [p, c] + [p, x] == [p, c, p, x];
    UnbrokenPieces([p, x]);
    assert TextOf([p, x]) == "-x" by {
      assert TextOf([x]) == "x" + TextOf([]) == "x";
      assert [p, x][1..] == [x] && "-" + "x" == "-x";
    }
    assert [c, p, x][1..] == [p, x] && [p, c, p, x][1..] == [c, p, x];
    assert Pieces([c, p, x]) == ["-x"];
    assert "-" + "-x" == "--x";
  }

  /** The restriction to comment-free inputs is needed: a comment is deleted with nothing in its
      place, so its neighbours may join up to a new comment. */
  lemma CommentsCanJoinNeighbours()
    ensures Split("-/**/-x") == ["--x"] && Split("--x") == []
  {
    hide Tokens, Pieces, Statements, Trim;
    CommentExample();
    LineExample();
    PiecesOfExample();
    LineCommentVanishes();
    OneStatement();
  }

  lemma OneStatement()
    ensures Statements(["--x"]) == ["--x"]
  {
    TrimOfTrimmed("--x");
    hide Trim;
    assert Statements(["--x"]) == Keep("--x") + Statements([]);
  }

  lemma LineCommentVanishes()
    ensures Pieces([Token(LineComment, "--x")]) == [""] && Statements([""]) == []
  {
    assert Trim("") == "";
    assert Statements([""]) == Keep("") + Statements([]);
  }
}
