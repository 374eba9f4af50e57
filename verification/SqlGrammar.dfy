/** The lexer and the declarative token grammar agree: `Lex` finds the one and only token that
    can stand at the head of a text. */
module SqlGrammar {
  import opened Strings
  import opened SqlLexer

  // ----- tags and delimiters

  lemma {:induction false} SpanOfTag(tag: string, rest: string)
    requires forall i | 0 <= i < |tag| :: IsTagChar(tag[i])
    requires rest != [] && !IsTagChar(rest[0])
    ensures TagSpan(tag + rest) == |tag|
  {
    if tag == [] {
      assert tag + rest == rest;
    } else {
      assert (tag + rest)[1..] == tag[1..] + rest;
      SpanOfTag(tag[1..], rest);
    }
  }

  /** A text opens a dollar quote in at most one way, the one that the lexer finds. */
  lemma DelimiterUnique(s: string, tag: string)
    requires IsTag(tag) && Delimiter(tag) <= s
    ensures HasDollarOpen(s) && DollarOpenText(s) == Delimiter(tag)
  {
    var n := |tag|;
    var rest := s[n + 1..];
    assert rest[0] == Delimiter(tag)[n + 1] == '$' by {
      assert s[n + 1] == Delimiter(tag)[n + 1];
    }
    assert s[1..] == tag + rest by {
      assert s[1..n + 1] == Delimiter(tag)[1..n + 1] == tag;
    }
    assert s[0] == '$';
    if tag == [] {
      assert s[1..][0] == '$';
    } else {
      SpanOfTag(tag, rest);
      assert s[1..][0] == tag[0];
    }
    assert TagLen(s[1..]) == n;
    assert DollarOpenText(s) == s[..n + 2] == Delimiter(tag);
  }

  lemma OpenHasTag(s: string)
    requires HasDollarOpen(s)
    ensures var tag := s[1..][..TagLen(s[1..])]; IsTag(tag) && DollarOpenText(s) == Delimiter(tag)
  {
    var n := TagLen(s[1..]);
    assert s[1..][..n] == s[1..n + 1];
    assert s[..n + 2] == "$" + s[1..n + 1] + "$";
  }

  lemma LexOfDollar(s: string)
    requires HasDollarOpen(s)
    ensures var open := DollarOpenText(s);
            var k := Find(open, s[|open|..]);
            Lex(s) == if k >= 0 then Token(DollarQuoted, s[..|open| + k + |open|]) else Token(DollarOpen, open)
  {}

  lemma OpensDollarExact(s: string)
    ensures OpensDollar(s) <==> HasDollarOpen(s)
  {
    if OpensDollar(s) {
      var tag :| IsTag(tag) && Delimiter(tag) <= s;
      DelimiterUnique(s, tag);
    }
    if HasDollarOpen(s) {
      OpenHasTag(s);
    }
  }

  /** Where the first occurrence stands does not depend on what follows it. */
  lemma OccursAtPrefix(pat: string, s: string, n: nat, k: nat)
    requires n <= |s| && k + |pat| <= n
    ensures OccursAt(pat, s[..n], k) <==> OccursAt(pat, s, k)
  {
    assert s[..n][k..k + |pat|] == s[k..k + |pat|];
  }

  /** Searching from the left stops where the declarative grammar says it does. */
  lemma EndOfRuns(pat: string, s: string)
    requires pat != []
    ensures var n := EndOf(pat, s); RunsTo(pat, s[..n], s[n..])
    ensures Find(pat, s) >= 0 ==> EndsAtFirst(pat, s[..EndOf(pat, s)])
  {
    var k := Find(pat, s);
    if k < 0 {
      assert s[..|s|] == s;
    } else {
      var y := s[..k + |pat|];
      forall i: nat | i < k ensures !OccursAt(pat, y, i) {
        OccursAtPrefix(pat, s, k + |pat|, i);
      }
      OccursAtPrefix(pat, s, k + |pat|, k);
      assert EndsAtFirst(pat, y);
    }
  }

  lemma EndOfUnique(pat: string, y: string, rest: string)
    requires pat != [] && RunsTo(pat, y, rest)
    ensures EndOf(pat, y + rest) == |y|
    ensures EndsAtFirst(pat, y) ==> Find(pat, y + rest) == |y| - |pat|
  {
    var s := y + rest;
    if EndsAtFirst(pat, y) {
      assert s[..|y|] == y;
      forall i: nat | i <= |y| - |pat| ensures OccursAt(pat, y, i) <==> OccursAt(pat, s, i) {
        OccursAtPrefix(pat, s, |y|, i);
      }
    } else {
      assert s == y;
    }
  }

  // ----- quotes

  lemma {:induction false} ScanDoubled(q: char, body: string, rest: string)
    requires Doubled(q, body)
    ensures rest == [] ==> ScanQuote(q, body + rest) == QuoteScan(|body|, false)
    ensures Starts(rest, q) && !Starts(rest[1..], q) ==>
              ScanQuote(q, body + rest) == QuoteScan(|body| + 1, true)
  {
    if body == [] {
      assert body + rest == rest;
    } else if body[0] != q {
      assert (body + rest)[1..] == body[1..] + rest;
      ScanDoubled(q, body[1..], rest);
    } else {
      assert (body + rest)[2..] == body[2..] + rest;
      ScanDoubled(q, body[2..], rest);
    }
  }

  lemma {:induction false} ScannedIsDoubled(q: char, s: string)
    ensures var r := ScanQuote(q, s);
            if r.closed then Doubled(q, s[..r.len - 1]) && !Starts(s[r.len..], q) else Doubled(q, s)
  {
    var r := ScanQuote(q, s);
    if s == [] {
    } else if s[0] != q {
      ScannedIsDoubled(q, s[1..]);
      if r.closed {
        assert s[..r.len - 1][1..] == s[1..][..r.len - 2];
        assert s[1..][r.len - 1..] == s[r.len..];
      }
    } else if |s| > 1 && s[1] == q {
      ScannedIsDoubled(q, s[2..]);
      if r.closed {
        assert s[..r.len - 1][2..] == s[2..][..r.len - 3];
        assert s[2..][r.len - 2..] == s[r.len..];
      }
    } else {
      assert s[..0] == [];
    }
  }

  // ----- the lexer's token has the declared shape

  lemma LexHasShape(s: string)
    requires s != []
    ensures Shape(Lex(s), s[|Lex(s).text|..])
  {
    var t := Lex(s);
    match t.kind
    case LineComment => LineHasShape(s);
    case BlockComment => BlockHasShape(s);
    case DollarQuoted => DollarHasShape(s);
    case DollarOpen => OpenHasShape(s);
    case Quoted => QuoteHasShape(s);
    case QuoteOpen => QuoteHasShape(s);
    case Semicolon => SemicolonHasShape(s);
    case Plain => PlainHasShape(s);
  }

  lemma LineHasShape(s: string)
    requires s != [] && Lex(s).kind == LineComment
    ensures Shape(Lex(s), s[|Lex(s).text|..])
  {
    CommentHasShape(s, "\n");
  }

  lemma BlockHasShape(s: string)
    requires s != [] && Lex(s).kind == BlockComment
    ensures Shape(Lex(s), s[|Lex(s).text|..])
  {
    CommentHasShape(s, "*/");
  }

  lemma SemicolonHasShape(s: string)
    requires s != [] && Lex(s).kind == Semicolon
    ensures Shape(Lex(s), s[|Lex(s).text|..])
  {}

  lemma OpenHasShape(s: string)
    requires s != [] && Lex(s).kind == DollarOpen
    ensures Shape(Lex(s), s[|Lex(s).text|..])
  {
    OpenHasTag(s);
    var t := Lex(s);
    assert IsDollarOpen(s[1..][..TagLen(s[1..])], t.text, s[|t.text|..]);
  }

  lemma PlainHasShape(s: string)
    requires s != [] && Lex(s).kind == Plain
    ensures Shape(Lex(s), s[|Lex(s).text|..])
  {
    var t := Lex(s);
    assert t.text + s[|t.text|..] == s;
    OpensDollarExact(s);
  }

  lemma QuoteToken(s: string)
    requires s != [] && (Lex(s).kind == Quoted || Lex(s).kind == QuoteOpen)
    ensures IsQuote(s[0])
    ensures var r := ScanQuote(s[0], s[1..]); Lex(s) == Token(if r.closed then Quoted else QuoteOpen, s[..1 + r.len])
  {}

  lemma QuoteHasShape(s: string)
    requires s != [] && (Lex(s).kind == Quoted || Lex(s).kind == QuoteOpen)
    ensures Shape(Lex(s), s[|Lex(s).text|..])
  {
    hide Lex, ScanQuote;
    QuoteToken(s);
    ScannedIsDoubled(s[0], s[1..]);
    var x, r := Lex(s).text, ScanQuote(s[0], s[1..]);
    if r.closed {
      assert x[1..r.len] == s[1..][..r.len - 1];
      assert s[1..][r.len..] == s[1 + r.len..];
      assert x[r.len] == s[1..][r.len - 1];
    } else {
      assert x == s;
    }
  }

  lemma CommentHasShape(s: string, pat: string)
    requires |s| > 1 && pat != []
    ensures var n := EndOf(pat, s[2..]);
            var x := s[..2 + n];
            |x| >= 2 && x[0] == s[0] && x[1] == s[1] && RunsTo(pat, x[2..], s[|x|..])
  {
    var n := EndOf(pat, s[2..]);
    EndOfRuns(pat, s[2..]);
    assert s[..2 + n][2..] == s[2..][..n];
    assert s[2..][n..] == s[2 + n..];
  }

  lemma DollarHasShape(s: string)
    requires s != [] && Lex(s).kind == DollarQuoted
    ensures Shape(Lex(s), s[|Lex(s).text|..])
  {
    OpenHasTag(s);
    var open := DollarOpenText(s);
    var tag := s[1..][..TagLen(s[1..])];
    var after := s[|open|..];
    EndOfRuns(open, after);
    var x := Lex(s).text;
    assert x[|open|..] == after[..EndOf(open, after)];
    assert IsDollarBlock(tag, x);
  }

  // ----- a text of the declared shape is what the lexer reads

  lemma ShapeIsLexed(t: Token, rest: string)
    requires t.text != [] && Shape(t, rest)
    ensures Lex(t.text + rest) == t
  {
    var x := t.text;
    var s := x + rest;
    match t.kind
    case LineComment => ShapedComment("\n", x, rest);
    case BlockComment => ShapedComment("*/", x, rest);
    case DollarQuoted => ShapedDollar(t, rest);
    case DollarOpen => ShapedDollarOpen(t, rest);
    case Quoted => ShapedQuote(t, rest);
    case QuoteOpen => ShapedQuote(t, rest);
    case Semicolon => assert s[..1] == x;
    case Plain =>
      OpensDollarExact(s);
      assert s[..1] == x;
  }

  /** What is left to read once the opening quote of `t` has been read. */
  lemma QuoteIsScanned(t: Token, rest: string)
    requires (t.kind == Quoted || t.kind == QuoteOpen) && Shape(t, rest)
    ensures t.text != [] && IsQuote(t.text[0])
    ensures ScanQuote(t.text[0], (t.text + rest)[1..]) == QuoteScan(|t.text| - 1, t.kind == Quoted)
  {
    var x := t.text;
    var s, q := x + rest, x[0];
    if t.kind == Quoted {
      var body, tail := x[1..|x| - 1], [q] + rest;
      assert s[1..] == body + tail;
      assert tail[1..] == rest;
      ScanDoubled(q, body, tail);
    } else {
      ScanDoubled(q, x[1..], []);
      assert s[1..] == x[1..] + [];
    }
    hide ScanQuote, Doubled;
  }

  lemma LexOfQuote(s: string)
    requires s != [] && IsQuote(s[0])
    ensures var r := ScanQuote(s[0], s[1..]); Lex(s) == Token(if r.closed then Quoted else QuoteOpen, s[..1 + r.len])
  {
    hide ScanQuote;
  }

  lemma ShapedQuote(t: Token, rest: string)
    requires (t.kind == Quoted || t.kind == QuoteOpen) && Shape(t, rest)
    ensures t.text != [] && Lex(t.text + rest) == t
  {
    QuoteIsScanned(t, rest);
    hide Lex, Shape, ScanQuote, IsQuote;
    var s := t.text + rest;
    LexOfQuote(s);
    assert s[..|t.text|] == t.text;
  }

  lemma ShapedComment(pat: string, x: string, rest: string)
    requires |x| >= 2 && pat != [] && RunsTo(pat, x[2..], rest)
    ensures var s := x + rest; s[0] == x[0] && s[1] == x[1] && s[..2 + EndOf(pat, s[2..])] == x
  {
    hide EndOf, RunsTo;
    EndOfUnique(pat, x[2..], rest);
    assert (x + rest)[2..] == x[2..] + rest;
  }

  lemma ShapedDollar(t: Token, rest: string)
    requires t.kind == DollarQuoted && Shape(t, rest)
    ensures t.text != [] && Lex(t.text + rest) == t
  {
    hide Lex, TagLen, Find, Delimiter, HasDollarOpen, DollarOpenText;
    var x := t.text;
    var s := x + rest;
    var tag :| IsDollarBlock(tag, x);
    var open := Delimiter(tag);
    assert open <= s && HasDollarOpen(s) && DollarOpenText(s) == open by {
      assert s[..|open|] == x[..|open|] == open;
      DelimiterUnique(s, tag);
    }
    var after := x[|open|..];
    assert s[|open|..] == after + rest;
    assert open != [];
    EndOfUnique(open, after, rest);
    LexOfDollar(s);
    assert s[..|x|] == x;
  }

  lemma ShapedDollarOpen(t: Token, rest: string)
    requires t.kind == DollarOpen && Shape(t, rest)
    ensures t.text != [] && Lex(t.text + rest) == t
  {
    var x := t.text;
    var s := x + rest;
    var tag :| IsDollarOpen(tag, x, rest);
    assert s[..|x|] == x;
    DelimiterUnique(s, tag);
    assert s[|x|..] == rest;
  }

  /** The lexer refines the grammar exactly: `t` is the first token of `s` if and only if `t`
      stands at the head of `s` and has a shape the grammar allows before what is left. */
  lemma GrammarIsExact(s: string, t: Token)
    requires s != []
    ensures t == Lex(s) <==> t.text != [] && t.text <= s && Shape(t, s[|t.text|..])
  {
    LexHasShape(s);
    if t.text != [] && t.text <= s && Shape(t, s[|t.text|..]) {
      ShapeIsLexed(t, s[|t.text|..]);
      assert t.text + s[|t.text|..] == s;
    }
  }
}
