/** `split_statements`: the index-driven loop that cuts a migration into statements, proved
    against the token grammar. */
module SqlSplitter {
  import opened Strings
  import opened SqlLexer
  import opened SqlGrammar

  // ----- specification

  /** The texts between top-level semicolons, comments deleted, untrimmed. */
  function Pieces(ts: seq<Token>): (ps: seq<string>)
    ensures |ps| >= 1
  {
    if ts == [] then [""]
    else if ts[0].kind == Semicolon then [""] + Pieces(ts[1..])
    else if IsComment(ts[0]) then Pieces(ts[1..])
    else Glue(ts[0].text, Pieces(ts[1..]))
  }

  /** Puts `front` before the first piece. */
  function Glue(front: string, ps: seq<string>): (r: seq<string>)
    requires |ps| >= 1
    ensures |r| == |ps|
  {
    [front + ps[0]] + ps[1..]
  }

  lemma GlueNothing(ps: seq<string>)
    requires |ps| >= 1
    ensures Glue("", ps) == ps
  {
    assert "" + ps[0] == ps[0];
  }

  /** The non-empty trims of the pieces, in order. */
  function Statements(ps: seq<string>): seq<string> {
    if ps == [] then [] else Keep(ps[0]) + Statements(ps[1..])
  }

  function Keep(piece: string): seq<string> {
    if Trim(piece) == [] then [] else [Trim(piece)]
  }

  function Split(sql: string): seq<string> {
    Statements(Pieces(Tokens(sql)))
  }

  /** What remains to be emitted when `current` has been collected and `rest` is unread. */
  function Remaining(current: string, rest: string): seq<string> {
    Statements(Glue(current, Pieces(Tokens(rest))))
  }

  // ----- one token read

  lemma ReadOne(rest: string, n: nat, current: string)
    requires rest != [] && n == |Lex(rest).text|
    ensures var t := Lex(rest);
            Remaining(current, rest) ==
            if t.kind == Semicolon then Keep(current) + Remaining("", rest[n..])
            else if IsComment(t) then Remaining(current, rest[n..])
            else Remaining(current + t.text, rest[n..])
  {
    var t := Lex(rest);
    var tail := Pieces(Tokens(rest[n..]));
    assert Tokens(rest) == [t] + Tokens(rest[n..]);
    if t.kind == Semicolon {
      assert Glue(current, [""] + tail) == [current] + tail by {
        assert current + "" == current;
      }
      GlueNothing(tail);
    } else if !IsComment(t) {
      assert Glue(current, Glue(t.text, tail)) == Glue(current + t.text, tail) by {
        assert current + (t.text + tail[0]) == current + t.text + tail[0];
      }
    }
  }

  lemma RemainingEnds(sql: string, current: string)
    ensures Split(sql) == Remaining("", sql)
    ensures Remaining(current, "") == Keep(current)
  {
    GlueNothing(Pieces(Tokens(sql)));
    assert Glue(current, [""]) == [current] by { assert current + "" == current; }
    assert Statements([current]) == Keep(current) + Statements([]);
  }

  lemma SkipStep(chars: string, i: nat, j: nat, current: string)
    requires i < j <= |chars| && Lex(chars[i..]).text == chars[i..j] && IsComment(Lex(chars[i..]))
    ensures Remaining(current, chars[i..]) == Remaining(current, chars[j..])
  {
    hide Remaining, Lex;
    ReadOne(chars[i..], j - i, current);
    assert chars[i..][j - i..] == chars[j..];
  }

  lemma EmitStep(chars: string, i: nat, j: nat, current: string)
    requires i < j <= |chars| && Lex(chars[i..]).text == chars[i..j]
    requires !IsComment(Lex(chars[i..])) && Lex(chars[i..]).kind != Semicolon
    ensures Remaining(current, chars[i..]) == Remaining(current + chars[i..j], chars[j..])
  {
    hide Remaining, Lex;
    ReadOne(chars[i..], j - i, current);
    assert chars[i..][j - i..] == chars[j..];
  }

  /** The character at `i` starts no comment, quote or dollar quote. */
  predicate Single(chars: string, i: nat)
    requires i < |chars|
  {
    && !(i + 1 < |chars| && chars[i] == '-' && chars[i + 1] == '-')
    && !(i + 1 < |chars| && chars[i] == '/' && chars[i + 1] == '*')
    && (chars[i] == '$' ==> !HasDollarOpen(chars[i..])) && !IsQuote(chars[i])
  }

  lemma SingleStep(chars: string, i: nat, current: string)
    requires i < |chars| && Single(chars, i)
    ensures Remaining(current, chars[i..]) ==
            if chars[i] == ';' then Keep(current) + Remaining("", chars[i + 1..])
            else Remaining(current + [chars[i]], chars[i + 1..])
  {
    hide Remaining;
    assert chars[i..][..1] == [chars[i]];
    ReadOne(chars[i..], 1, current);
    assert chars[i..][1..] == chars[i + 1..];
  }

  // ----- the scanning loops

  method SkipLineComment(chars: string, start: nat) returns (i: nat)
    requires start + 1 < |chars| && chars[start] == '-' && chars[start + 1] == '-'
    ensures start < i <= |chars| && Lex(chars[start..]) == Token(LineComment, chars[start..i])
  {
    i := start + 2;
    var body := chars[start + 2..];
    while i < |chars| && chars[i] != '\n'
      invariant start + 2 <= i <= |chars|
      invariant forall k: nat | k < i - start - 2 :: !OccursAt("\n", body, k)
    {
      assert body[i - start - 2..i - start - 1] == [chars[i]];
      i := i + 1;
    }
    if i < |chars| {
      assert body[i - start - 2..i - start - 1] == [chars[i]];
      assert OccursAt("\n", body, i - start - 2);
      i := i + 1;
    } else {
      assert Find("\n", body) < 0;
    }
    assert chars[start..][2..] == body;
    assert chars[start..][..i - start] == chars[start..i];
  }

  method SkipBlockComment(chars: string, start: nat) returns (i: nat)
    requires start + 1 < |chars| && chars[start] == '/' && chars[start + 1] == '*'
    ensures start < i <= |chars| && Lex(chars[start..]) == Token(BlockComment, chars[start..i])
  {
    i := start + 2;
    var body := chars[start + 2..];
    var closed := false;
    while i < |chars| && !closed
      invariant start + 2 <= i <= |chars|
      invariant !closed ==> forall k: nat | k < i - start - 2 :: !OccursAt("*/", body, k)
      invariant closed ==> i >= start + 4 && Find("*/", body) == i - start - 4
      decreases |chars| - i
    {
      ghost var k := i - start - 2;
      assert k + 2 <= |body| ==> body[k..k + 2] == [chars[i], chars[i + 1]];
      if chars[i] == '*' && i + 1 < |chars| && chars[i + 1] == '/' {
        assert OccursAt("*/", body, k);
        i := i + 2;
        closed := true;
      } else {
        i := i + 1;
      }
    }
    if !closed {
      assert Find("*/", body) < 0;
    }
    assert chars[start..][2..] == body;
    assert chars[start..][..i - start] == chars[start..i];
  }

  /** The end of the tag that starts at `start`, if a tag starts there. */
  method ScanTag(chars: string, start: nat) returns (j: nat)
    requires start <= |chars|
    ensures start <= j <= |chars| && j - start == TagLen(chars[start..])
  {
    j := start;
    if j < |chars| && IsLetter(chars[j]) {
      j := j + 1;
      assert chars[start..][1..] == chars[start + 1..];
      while j < |chars| && IsTagChar(chars[j])
        invariant start < j <= |chars|
        invariant TagSpan(chars[start..]) == j - start + TagSpan(chars[j..])
      {
        assert chars[j..][1..] == chars[j + 1..];
        j := j + 1;
      }
    }
  }

  /** Looks for the closing delimiter from `bodyStart` on. */
  method FindClosing(chars: string, closing: string, bodyStart: nat) returns (at: int)
    requires bodyStart <= |chars|
    ensures at == -1 || at >= bodyStart
    ensures Find(closing, chars[bodyStart..]) == if at == -1 then -1 else at - bodyStart
  {
    ghost var body := chars[bodyStart..];
    var clen := |closing|;
    var k := bodyStart;
    while k + clen <= |chars|
      invariant bodyStart <= k
      invariant forall m: nat | m < k - bodyStart :: !OccursAt(closing, body, m)
    {
      assert body[k - bodyStart..k - bodyStart + clen] == chars[k..k + clen];
      if chars[k..k + clen] == closing {
        assert OccursAt(closing, body, k - bodyStart);
        return k;
      }
      k := k + 1;
    }
    return -1;
  }

  /** Reads what a `$` at `start` opens. `isDollar` is false when it opens no dollar quote. */
  method ReadDollar(chars: string, start: nat) returns (isDollar: bool, i: nat)
    requires start < |chars| && chars[start] == '$'
    ensures isDollar == HasDollarOpen(chars[start..])
    ensures isDollar ==> start < i <= |chars| && Lex(chars[start..]).text == chars[start..i]
    ensures isDollar ==> var k := Lex(chars[start..]).kind; k == DollarQuoted || k == DollarOpen
  {
    hide Lex, Find, TagLen;
    ghost var rest := chars[start..];
    i := start;
    var j := ScanTag(chars, start + 1);
    assert rest[1..] == chars[start + 1..];
    isDollar := j < |chars| && chars[j] == '$';
    assert j < |chars| ==> rest[j - start] == chars[j];
    if isDollar {
      var tag := chars[start + 1..j];
      var openLen := j - start + 1;
      var bodyStart := j + 1;
      var closing := "$" + tag + "$";
      assert closing == rest[..openLen] == DollarOpenText(rest);
      assert rest[openLen..] == chars[bodyStart..];
      LexOfDollar(rest);
      var at := FindClosing(chars, closing, bodyStart);
      // without a closing tag the opening delimiter is a literal
      i := if at == -1 then start + openLen else at + |closing|;
      assert rest[..i - start] == chars[start..i];
    }
  }

  function Shift(r: QuoteScan, n: nat): QuoteScan { QuoteScan(n + r.len, r.closed) }

  lemma ScanAt(q: char, chars: string, i: nat)
    requires i < |chars|
    ensures ScanQuote(q, chars[i..]) ==
            if chars[i] != q then Shift(ScanQuote(q, chars[i + 1..]), 1)
            else if i + 1 < |chars| && chars[i + 1] == q then Shift(ScanQuote(q, chars[i + 2..]), 2)
            else QuoteScan(1, true)
  {
    assert chars[i..][1..] == chars[i + 1..];
    if i + 1 < |chars| {
      assert chars[i..][2..] == chars[i + 2..];
    }
  }

  method ReadQuote(chars: string, start: nat) returns (text: string, i: nat)
    requires start < |chars| && IsQuote(chars[start])
    ensures start < i <= |chars| && text == chars[start..i] && Lex(chars[start..]).text == text
    ensures var k := Lex(chars[start..]).kind; k == Quoted || k == QuoteOpen
  {
    hide Lex, ScanQuote;
    var q := chars[start];
    text := [q];
    i := start + 1;
    ghost var total := ScanQuote(q, chars[i..]);
    var closed := false;
    while i < |chars| && !closed
      invariant start < i <= |chars| && text == chars[start..i]
      invariant closed ==> total == QuoteScan(i - start - 1, true)
      invariant !closed ==> total == Shift(ScanQuote(q, chars[i..]), i - start - 1)
      decreases |chars| - i
    {
      ScanAt(q, chars, i);
      ghost var at := i;
      var c := chars[i];
      if c == q {
        if i + 1 < |chars| && chars[i + 1] == q {
          text := text + [q, q];
          i := i + 2;
        } else {
          text := text + [q];
          i := i + 1;
          closed := true;
        }
      } else {
        text := text + [c];
        i := i + 1;
      }
      assert chars[start..i] == chars[start..at] + chars[at..i];
    }
    LexOfQuote(chars, start, i);
  }

  lemma LexOfQuote(chars: string, start: nat, i: nat)
    requires start < i <= |chars| && IsQuote(chars[start])
    requires ScanQuote(chars[start], chars[start + 1..]).len == i - start - 1
    ensures var t := Lex(chars[start..]); t.text == chars[start..i] && (t.kind == Quoted || t.kind == QuoteOpen)
  {
    var rest := chars[start..];
    assert rest[1..] == chars[start + 1..];
    assert rest[..i - start] == chars[start..i];
  }

  /** Ends the statement collected so far. */
  method Terminate(statements: seq<string>, current: string) returns (r: seq<string>)
    ensures r == statements + Keep(current)
  {
    hide Trim;
    var stmt := Trim(current);
    r := statements;
    if stmt != [] {
      r := r + [stmt];
    }
  }

  method SplitStatements(sql: string) returns (statements: seq<string>)
    ensures statements == Split(sql)
  {
    hide Lex, Remaining, Split, HasDollarOpen, Keep;
    var chars := sql;
    var len := |chars|;
    statements := [];
    var current := "";
    var i := 0;
    assert chars[0..] == sql;
    RemainingEnds(sql, "");
    while i < len
      invariant 0 <= i <= len
      invariant Split(sql) == statements + Remaining(current, chars[i..])
      decreases len - i
    {
      var ch := chars[i];
      if ch == '-' && i + 1 < len && chars[i + 1] == '-' {
        var end := SkipLineComment(chars, i);
        SkipStep(chars, i, end, current);
        i := end;
        continue;
      }
      if ch == '/' && i + 1 < len && chars[i + 1] == '*' {
        var end := SkipBlockComment(chars, i);
        SkipStep(chars, i, end, current);
        i := end;
        continue;
      }
      if ch == '$' {
        var isDollar, end := ReadDollar(chars, i);
        if isDollar {
          EmitStep(chars, i, end, current);
          current := current + chars[i..end];
          i := end;
          continue;
        }
      }
      if IsQuote(ch) {
        var text, end := ReadQuote(chars, i);
        EmitStep(chars, i, end, current);
        current := current + text;
        i := end;
        continue;
      }
      SingleStep(chars, i, current);
      if ch == ';' {
        assert statements + (Keep(current) + Remaining("", chars[i + 1..]))
            == statements + Keep(current) + Remaining("", chars[i + 1..]);
        statements := Terminate(statements, current);
        current := "";
      } else {
        current := current + [ch];
      }
      i := i + 1;
    }
    assert chars[len..] == "";
    RemainingEnds(sql, current);
    statements := Terminate(statements, current);
  }
}
