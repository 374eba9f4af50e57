/** The token grammar that the migration splitter recognises, given twice: as a function that
    reads the first token off a text, and as a declarative shape that does not search. */
module SqlLexer {
  import opened Strings

  datatype Kind =
    | LineComment   // -- up to and including the newline, or to the end of input
    | BlockComment  // /* up to and including the first */, or to the end of input
    | DollarQuoted  // $tag$ ... $tag$
    | DollarOpen    // $tag$ that is never closed
    | Quoted        // '...' or "..." with doubled quotes inside
    | QuoteOpen     // a quote that is never closed
    | Semicolon
    | Plain         // any other single character

  datatype Token = Token(kind: Kind, text: string)

  predicate IsLetter(c: char) { 'a' <= c <= 'z' || 'A' <= c <= 'Z' || c == '_' }
  predicate IsTagChar(c: char) { IsLetter(c) || '0' <= c <= '9' }
  predicate IsQuote(c: char) { c == '\'' || c == '"' }
  predicate IsComment(t: Token) { t.kind == LineComment || t.kind == BlockComment }

  /** Empty, or letters, digits and underscores with no digit in front. */
  predicate IsTag(tag: string) {
    && (tag != [] ==> !('0' <= tag[0] <= '9'))
    && forall i | 0 <= i < |tag| ::
         'a' <= tag[i] <= 'z' || 'A' <= tag[i] <= 'Z' || '0' <= tag[i] <= '9' || tag[i] == '_'
  }

  /** The text starts with these characters. */
  predicate Starts(s: string, a: char) { |s| > 0 && s[0] == a }
  predicate StartsWith(s: string, a: char, b: char) { |s| > 1 && s[0] == a && s[1] == b }

  /** `pat` occurs in `s` at position `k`. */
  predicate OccursAt(pat: string, s: string, k: nat) {
    k + |pat| <= |s| && s[k..k + |pat|] == pat
  }

  // ----- the searching functions

  lemma OccursAtTail(pat: string, s: string, i: nat)
    requires s != [] && i > 0
    ensures OccursAt(pat, s, i) <==> OccursAt(pat, s[1..], i - 1)
  {
    if i + |pat| <= |s| {
      assert s[1..][i - 1..i - 1 + |pat|] == s[i..i + |pat|];
    }
  }

  function TagSpan(s: string): (n: nat)
    ensures n <= |s| && (forall i | 0 <= i < n :: IsTagChar(s[i])) && (n < |s| ==> !IsTagChar(s[n]))
  {
    if s != [] && IsTagChar(s[0]) then 1 + TagSpan(s[1..]) else 0
  }

  function TagLen(s: string): (n: nat)
    ensures n <= |s| && IsTag(s[..n]) && (n < |s| && n > 0 ==> !IsTagChar(s[n]))
    ensures n == 0 && s != [] ==> !IsLetter(s[0])
  {
    if s != [] && IsLetter(s[0]) then TagSpan(s) else 0
  }

  /** The first occurrence of `pat`, or -1. */
  function Find(pat: string, s: string): (k: int)
    ensures k == -1 || (k >= 0 && OccursAt(pat, s, k))
    ensures forall i: nat | k == -1 || i < k :: !OccursAt(pat, s, i)
  {
    if |s| < |pat| then -1
    else if s[..|pat|] == pat then 0
    else if s == [] then -1
    else
      assert forall i: nat | i > 0 :: OccursAt(pat, s, i) <==> OccursAt(pat, s[1..], i - 1) by {
        forall i: nat | i > 0 { OccursAtTail(pat, s, i); }
      }
      assert !OccursAt(pat, s, 0);
      var k := Find(pat, s[1..]);
      if k == -1 then -1 else k + 1
  }

  /** How much of `s` is read when reading up to and including the first `pat`, or to the end. */
  function EndOf(pat: string, s: string): (n: nat)
    ensures n <= |s|
  {
    var k := Find(pat, s);
    if k < 0 then |s| else k + |pat|
  }

  datatype QuoteScan = QuoteScan(len: nat, closed: bool)

  /** Reads the rest of a literal whose opening `q` has been consumed. */
  function ScanQuote(q: char, s: string): (r: QuoteScan)
    ensures r.len <= |s| && (!r.closed ==> r.len == |s|)
    ensures r.closed ==> r.len > 0 && s[r.len - 1] == q
  {
    if s == [] then QuoteScan(0, false)
    else if s[0] != q then var r := ScanQuote(q, s[1..]); QuoteScan(1 + r.len, r.closed)
    else if |s| > 1 && s[1] == q then var r := ScanQuote(q, s[2..]); QuoteScan(2 + r.len, r.closed)
    else QuoteScan(1, true)
  }

  /** The opening `$tag$` at the head of `s`, if `s` starts with one. */
  predicate HasDollarOpen(s: string) {
    |s| > 0 && s[0] == '$' && var t := TagLen(s[1..]); t + 1 < |s| && s[t + 1] == '$'
  }

  function DollarOpenText(s: string): (r: string)
    requires HasDollarOpen(s)
    ensures 2 <= |r| <= |s| && r == s[..|r|]
  {
    s[..TagLen(s[1..]) + 2]
  }

  function Lex(s: string): (t: Token)
    requires s != []
    ensures 0 < |t.text| <= |s| && t.text == s[..|t.text|]
  {
    if StartsWith(s, '-', '-') then
      Token(LineComment, s[..2 + EndOf("\n", s[2..])])
    else if StartsWith(s, '/', '*') then
      Token(BlockComment, s[..2 + EndOf("*/", s[2..])])
    else if HasDollarOpen(s) then
      var open := DollarOpenText(s);
      var k := Find(open, s[|open|..]);
      if k >= 0 then Token(DollarQuoted, s[..|open| + k + |open|]) else Token(DollarOpen, open)
    else if IsQuote(s[0]) then
      var r := ScanQuote(s[0], s[1..]);
      Token(if r.closed then Quoted else QuoteOpen, s[..1 + r.len])
    else Token(if s[0] == ';' then Semicolon else Plain, s[..1])
  }

  function Tokens(s: string): (ts: seq<Token>) {
    if s == [] then [] else
      var t := Lex(s);
      [t] + Tokens(s[|t.text|..])
  }

  /** The text that the tokens cover. */
  function TextOf(ts: seq<Token>): string {
    if ts == [] then [] else ts[0].text + TextOf(ts[1..])
  }

  // ----- the declarative grammar

  /** Every `q` of `body` belongs to a doubled pair. */
  predicate Doubled(q: char, body: string) {
    body == []
    || (body[0] != q && Doubled(q, body[1..]))
    || (|body| > 1 && body[0] == q && body[1] == q && Doubled(q, body[2..]))
  }

  function Delimiter(tag: string): string { "$" + tag + "$" }

  /** The text starts with `$tag$` for some tag. */
  ghost predicate OpensDollar(s: string) {
    exists tag :: IsTag(tag) && Delimiter(tag) <= s
  }

  predicate Absent(pat: string, s: string) {
    forall k: nat | k <= |s| :: !OccursAt(pat, s, k)
  }

  /** `s` ends with `pat`, and `pat` occurs nowhere earlier in it. */
  predicate EndsAtFirst(pat: string, s: string) {
    |pat| <= |s| && OccursAt(pat, s, |s| - |pat|) && forall k: nat | k < |s| - |pat| :: !OccursAt(pat, s, k)
  }

  /** `y` runs to the first `pat` of `y + rest`, or to the end when there is none. */
  predicate RunsTo(pat: string, y: string, rest: string) {
    EndsAtFirst(pat, y) || (rest == [] && Absent(pat, y))
  }

  /** `x` is a dollar-quoted block with this tag. */
  predicate IsDollarBlock(tag: string, x: string) {
    IsTag(tag) && Delimiter(tag) <= x && EndsAtFirst(Delimiter(tag), x[|Delimiter(tag)|..])
  }

  predicate IsDollarOpen(tag: string, x: string, rest: string) {
    IsTag(tag) && x == Delimiter(tag) && Absent(x, rest)
  }

  /** `t` may be the first token of `t.text + rest`. */
  ghost predicate Shape(t: Token, rest: string) {
    var x := t.text;
    match t.kind
    case LineComment => "--" <= x && RunsTo("\n", x[2..], rest)
    case BlockComment => "/*" <= x && RunsTo("*/", x[2..], rest)
    case DollarQuoted => exists tag :: IsDollarBlock(tag, x)
    case DollarOpen => exists tag :: IsDollarOpen(tag, x, rest)
    case Quoted =>
      && |x| >= 2 && (x[0] == '\'' || x[0] == '"') && x[|x| - 1] == x[0] && Doubled(x[0], x[1..|x| - 1])
      && (rest != [] ==> rest[0] != x[0])
    case QuoteOpen =>
      |x| >= 1 && (x[0] == '\'' || x[0] == '"') && rest == [] && Doubled(x[0], x[1..])
    case Semicolon => x == ";"
    case Plain =>
      && |x| == 1 && x[0] != '\'' && x[0] != '"' && x[0] != ';'
      && !("--" <= x + rest) && !("/*" <= x + rest) && !OpensDollar(x + rest)
  }
}
