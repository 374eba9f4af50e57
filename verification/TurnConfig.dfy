/** The TURN server list as configured: comma-separated `region:priority:url` entries. */
module TurnConfig {
  import opened Options
  import opened Strings

  type I32 = n: int | -0x8000_0000 <= n < 0x8000_0000

  datatype ServerCfg = ServerCfg(url: string, region: string, priority: I32)

  // ----- splitting

  /** Puts a character in front of the first piece, or starts a new piece. */
  function Extend(c: char, sep: char, pieces: seq<string>): (r: seq<string>)
    requires pieces != []
    ensures r != []
  {
    if c == sep then [""] + pieces else [[c] + pieces[0]] + pieces[1..]
  }

  function Split(s: string, sep: char): (r: seq<string>)
    ensures r != []
  {
    if s == "" then [""] else Extend(s[0], sep, Split(s[1..], sep))
  }

  /** The text before and after the first `sep`. */
  function SplitOnce(s: string, sep: char): (r: Option<(string, string)>)
    ensures r.Some? ==> s == r.value.0 + [sep] + r.value.1 && sep !in r.value.0
    ensures r.None? ==> sep !in s
  {
    if s == "" then None
    else if s[0] == sep then Some(("", s[1..]))
    else match SplitOnce(s[1..], sep)
      case None => None
      case Some((before, after)) => Some(([s[0]] + before, after))
  }

  lemma ExtendConcat(c: char, sep: char, a: seq<string>, b: seq<string>)
    requires a != []
    ensures Extend(c, sep, a + b) == Extend(c, sep, a) + b
  {
    assert (a + b)[1..] == a[1..] + b;
  }

  lemma {:induction false} SplitConcat(a: string, sep: char, b: string)
    ensures Split(a + [sep] + b, sep) == Split(a, sep) + Split(b, sep)
  {
    var s := a + [sep] + b;
    if a == "" {
      assert s[1..] == b;
    } else {
      assert s[0] == a[0] && s[1..] == a[1..] + [sep] + b;
      SplitConcat(a[1..], sep, b);
      hide Extend;
      ExtendConcat(a[0], sep, Split(a[1..], sep), Split(b, sep));
    }
  }

  lemma {:induction false} SplitWithout(s: string, sep: char)
    requires sep !in s
    ensures Split(s, sep) == [s]
  {
    if s != "" {
      SplitWithout(s[1..], sep);
      assert s == [s[0]] + s[1..];
    }
  }

  lemma {:induction false} PiecesHaveNoSeparator(s: string, sep: char)
    ensures forall i | 0 <= i < |Split(s, sep)| :: sep !in Split(s, sep)[i]
  {
    if s != "" {
      PiecesHaveNoSeparator(s[1..], sep);
      var rest := Split(s[1..], sep);
      assert forall i | 0 < i < |rest| :: rest[1..][i - 1] == rest[i];
    }
  }

  lemma {:induction false} SplitOnceFirst(a: string, sep: char, b: string)
    requires sep !in a
    ensures SplitOnce(a + [sep] + b, sep) == Some((a, b))
  {
    var s := a + [sep] + b;
    if a == "" {
      assert s[1..] == b;
    } else {
      assert s[1..] == a[1..] + [sep] + b && a == [a[0]] + a[1..];
      SplitOnceFirst(a[1..], sep, b);
    }
  }

  // ----- decimal numbers

  predicate IsDigit(c: char) { '0' <= c <= '9' }

  predicate AllDigits(s: string) {
    forall i | 0 <= i < |s| :: IsDigit(s[i])
  }

  function Value(s: string): nat
    requires AllDigits(s)
  {
    if s == "" then 0 else
      assert IsDigit(s[|s| - 1]);
      Value(s[..|s| - 1]) * 10 + (s[|s| - 1] as int - '0' as int)
  }

  /** `str::parse::<i32>`: one optional sign, at least one digit, nothing else, and in range. */
  function ParseI32(s: string): (r: Option<I32>)
    ensures r.Some? ==> ':' !in s
  {
    var signed := s != "" && s[0] in "+-";
    var digits := if signed then s[1..] else s;
    if digits == "" || !AllDigits(digits) then None
    else
      var n: int := if signed && s[0] == '-' then 0 - Value(digits) else Value(digits);
      assert s == (if signed then [s[0]] else "") + digits;
      if -0x8000_0000 <= n < 0x8000_0000 then Some(n) else None
  }

  function ShowNat(n: nat): (s: string)
    ensures s != "" && AllDigits(s) && Value(s) == n
  {
    var digit := ['0' + (n % 10) as char];
    if n < 10 then
      assert Value(digit[..0]) == 0;
      digit
    else
      var s := ShowNat(n / 10) + digit;
      assert s[..|s| - 1] == ShowNat(n / 10);
      s
  }

  function Show(n: I32): (s: string)
    ensures ParseI32(s) == Some(n)
  {
    if n < 0 then
      var magnitude: int := n;
      var s := "-" + ShowNat(-magnitude);
      assert s[1..] == ShowNat(-magnitude);
      s
    else
      assert IsDigit(ShowNat(n)[0]);
      ShowNat(n)
  }

  // ----- what a number is

  function PowerOfTen(n: nat): nat { if n == 0 then 1 else 10 * PowerOfTen(n - 1) }

  /** The digits by their places: the first is worth the most. */
  function ByPlaces(digits: string): int {
    if digits == "" then 0
    else (digits[0] as int - '0' as int) * PowerOfTen(|digits| - 1) + ByPlaces(digits[1..])
  }

  lemma {:induction false} ByPlacesPush(digits: string, c: char)
    ensures ByPlaces(digits + [c]) == ByPlaces(digits) * 10 + (c as int - '0' as int)
  {
    var longer := digits + [c];
    if digits == "" {
      assert longer[1..] == "" && PowerOfTen(0) == 1;
    } else {
      assert longer[1..] == digits[1..] + [c];
      ByPlacesPush(digits[1..], c);
      TenTimes(digits[0] as int - '0' as int, |digits| - 1);
    }
  }

  lemma TenTimes(d: int, n: nat)
    ensures d * PowerOfTen(n + 1) == d * PowerOfTen(n) * 10
  {
    assert PowerOfTen(n + 1) == 10 * PowerOfTen(n);
  }

  lemma {:induction false} ValueIsByPlaces(s: string)
    requires AllDigits(s)
    ensures Value(s) == ByPlaces(s)
  {
    if s != "" {
      var before := s[..|s| - 1];
      assert s == before + [s[|s| - 1]] && IsDigit(s[|s| - 1]);
      ValueIsByPlaces(before);
      ByPlacesPush(before, s[|s| - 1]);
    }
  }

  /** `s` is an optional sign and then `digits`, of which there is at least one, and means `n`. */
  predicate Spells(s: string, digits: string, n: int) {
    && digits != "" && (forall i | 0 <= i < |digits| :: '0' <= digits[i] <= '9')
    && (if s == "-" + digits then n == -ByPlaces(digits)
        else (s == digits || s == "+" + digits) && n == ByPlaces(digits))
  }

  /** Exactly the numerals of 32-bit numbers are read, each as the number that it means. */
  lemma NumbersAreExact(s: string, n: int)
    ensures (ParseI32(s).Some? && ParseI32(s).value == n) <==>
              -2_147_483_648 <= n <= 2_147_483_647 && exists digits :: Spells(s, digits, n)
  {
    hide Value;
    if digits :| Spells(s, digits, n) {
      SpelledAreParsed(s, digits, n);
    }
    var signed := s != "" && s[0] in "+-";
    var digits := if signed then s[1..] else s;
    if ParseI32(s).Some? && ParseI32(s).value == n {
      ValueIsByPlaces(digits);
      assert s == (if signed then [s[0]] else "") + digits;
      assert IsDigit(digits[0]) && forall i | 0 <= i < |digits| :: IsDigit(digits[i]);
      assert Spells(s, digits, n);
    }
  }

  lemma SpelledAreParsed(s: string, digits: string, n: int)
    requires Spells(s, digits, n)
    ensures ParseI32(s) == if -2_147_483_648 <= n <= 2_147_483_647 then Some(n) else None
  {
    hide Value;
    ValueIsByPlaces(digits);
    assert IsDigit(digits[0]);
    if s != digits {
      assert s[1..] == digits;
    }
  }

  /** A number is shown without a sign and without a leading zero. */
  lemma {:induction false} ShownIsDecimal(n: nat)
    ensures Spells(ShowNat(n), ShowNat(n), n) && (|ShowNat(n)| > 1 ==> ShowNat(n)[0] != '0')
  {
    ValueIsByPlaces(ShowNat(n));
    assert forall i | 0 <= i < |ShowNat(n)| :: IsDigit(ShowNat(n)[i]);
    FirstDigit(n);
    hide Value, ByPlaces, ShowNat;
  }

  lemma {:induction false} FirstDigit(n: nat)
    ensures n > 0 ==> ShowNat(n)[0] != '0'
    ensures |ShowNat(n)| > 1 ==> n > 0
  {
    hide Value;
    if n >= 10 {
      FirstDigit(n / 10);
    }
  }

  // ----- the parser

  function ParseEntry(chunk: string): Option<ServerCfg> {
    match SplitOnce(chunk, ':')
    case None => None
    case Some((region, rest)) =>
      match SplitOnce(rest, ':')
      case None => None
      case Some((priority, url)) =>
        match ParseI32(priority)
        case None => None
        case Some(p) => if region == "" || url == "" then None else Some(ServerCfg(url, region, p))
  }

  function ParsePiece(piece: string): seq<ServerCfg> {
    var chunk := Trim(piece);
    if chunk == "" then [] else match ParseEntry(chunk)
      case None => []
      case Some(cfg) => [cfg]
  }

  function ParsePieces(pieces: seq<string>): seq<ServerCfg> {
    if pieces == [] then [] else ParsePiece(pieces[0]) + ParsePieces(pieces[1..])
  }

  function ParseTurnServers(s: string): seq<ServerCfg> {
    ParsePieces(Split(s, ','))
  }

  function PrintEntry(cfg: ServerCfg): string {
    cfg.region + ":" + Show(cfg.priority) + ":" + cfg.url
  }

  function PrintAll(cfgs: seq<ServerCfg>): seq<string> {
    seq(|cfgs|, i requires 0 <= i < |cfgs| => PrintEntry(cfgs[i]))
  }

  /** What a configuration must look like to have a printed form. */
  predicate WellFormed(cfg: ServerCfg) {
    && cfg.region != "" && !IsSpace(cfg.region[0]) && ':' !in cfg.region && ',' !in cfg.region
    && cfg.url != "" && !IsSpace(cfg.url[|cfg.url| - 1]) && ',' !in cfg.url
  }

  predicate AllWellFormed(cfgs: seq<ServerCfg>) {
    forall i | 0 <= i < |cfgs| :: WellFormed(cfgs[i])
  }

  // ----- entries do not affect each other

  lemma {:induction false} ParsePiecesConcat(a: seq<string>, b: seq<string>)
    ensures ParsePieces(a + b) == ParsePieces(a) + ParsePieces(b)
  {
    if a == [] {
      assert a + b == b;
    } else {
      assert (a + b)[1..] == a[1..] + b;
      ParsePiecesConcat(a[1..], b);
    }
  }

  /** Lists joined by a comma parse to the two lists one after the other, for all texts. */
  lemma ParseConcat(a: string, b: string)
    ensures ParseTurnServers(a + "," + b) == ParseTurnServers(a) + ParseTurnServers(b)
  {
    SplitConcat(a, ',', b);
    ParsePiecesConcat(Split(a, ','), Split(b, ','));
  }

  /** So an entry that parses to nothing leaves its neighbours as they are. */
  lemma MalformedEntriesAreSkipped(a: string, bad: string, b: string)
    requires ParseTurnServers(bad) == []
    ensures ParseTurnServers(a + "," + bad + "," + b) == ParseTurnServers(a) + ParseTurnServers(b)
  {
    ParseConcat(a + "," + bad, b);
    ParseConcat(a, bad);
  }

  // ----- what an entry means

  /** `priority` writes the number of `cfg`, and `chunk` is the three fields with colons between. */
  ghost predicate Writes(chunk: string, cfg: ServerCfg, priority: string) {
    && chunk == cfg.region + ":" + priority + ":" + cfg.url
    && cfg.region != "" && ':' !in cfg.region && cfg.url != ""
    && exists digits :: Spells(priority, digits, cfg.priority)
  }

  lemma WrittenEntryParses(chunk: string, cfg: ServerCfg, priority: string)
    requires Writes(chunk, cfg, priority)
    ensures ParseEntry(chunk) == Some(cfg)
  {
    NumbersAreExact(priority, cfg.priority);
    hide SplitOnce, ParseI32, Spells;
    var rest := priority + [':'] + cfg.url;
    assert chunk == cfg.region + [':'] + rest;
    SplitOnceFirst(cfg.region, ':', rest);
    SplitOnceFirst(priority, ':', cfg.url);
  }

  /** Exactly the texts of the documented form are entries, and each has one reading. */
  lemma EntryIsExact(chunk: string, cfg: ServerCfg)
    ensures ParseEntry(chunk) == Some(cfg) <==> exists priority :: Writes(chunk, cfg, priority)
  {
    hide SplitOnce, ParseI32, Spells;
    if ParseEntry(chunk) == Some(cfg) {
      var (region, rest) := SplitOnce(chunk, ':').value;
      var (priority, url) := SplitOnce(rest, ':').value;
      assert chunk == region + [':'] + (priority + [':'] + url);
      NumbersAreExact(priority, cfg.priority);
      assert Writes(chunk, cfg, priority);
    }
    if exists priority :: Writes(chunk, cfg, priority) {
      var priority :| Writes(chunk, cfg, priority);
      WrittenEntryParses(chunk, cfg, priority);
    }
  }

  /** A text without a comma is one entry, white space around it aside, or nothing at all; so `ParseConcat`
      says what every text is parsed to. */
  lemma OneEntryOrNothing(s: string)
    requires ',' !in s
    ensures |ParseTurnServers(s)| <= 1
    ensures forall cfg :: ParseTurnServers(s) == [cfg] <==> exists priority :: Writes(Trim(s), cfg, priority)
  {
    OnlyPiece(s);
    hide Trim, ParseEntry, Writes, ParseTurnServers;
    forall cfg ensures ParseTurnServers(s) == [cfg] <==> exists priority :: Writes(Trim(s), cfg, priority) {
      EntryIsExact(Trim(s), cfg);
      if priority :| Writes(Trim(s), cfg, priority) {
        EntriesAreNotBlank(Trim(s), cfg, priority);
      }
    }
  }

  lemma EntriesAreNotBlank(chunk: string, cfg: ServerCfg, priority: string)
    requires Writes(chunk, cfg, priority)
    ensures chunk != ""
  {}

  lemma OnlyPiece(s: string)
    requires ',' !in s
    ensures ParseTurnServers(s) == ParsePiece(s)
  {
    SplitWithout(s, ',');
    assert ParsePieces([s]) == ParsePiece(s) + ParsePieces([s][1..]);
  }

  /** A priority that spells no 32-bit number makes the entry nothing. */
  lemma NonNumbersAreSkipped(region: string, word: string, url: string)
    requires ':' !in region && ':' !in word && ',' !in region + ":" + word + ":" + url
    requires Trimmed(region + ":" + word + ":" + url)
    requires forall digits, n: I32 :: !Spells(word, digits, n)
    ensures ParseTurnServers(region + ":" + word + ":" + url) == []
  {
    hide SplitOnce, Split, Trim, ParseTurnServers, ParseI32, Spells, IsSpace;
    var chunk := region + ":" + word + ":" + url;
    OnlyPiece(chunk);
    TrimOfTrimmed(chunk);
    assert chunk == region + [':'] + (word + [':'] + url);
    SplitOnceFirst(region, ':', word + [':'] + url);
    SplitOnceFirst(word, ':', url);
    if ParseI32(word).Some? {
      NumbersAreExact(word, ParseI32(word).value);
    }
  }

  lemma LettersAreSkipped(a: string, b: string)
    ensures ParseTurnServers(a + ",eu:abc:url," + b) == ParseTurnServers(a) + ParseTurnServers(b)
  {
    hide ParseTurnServers;
    var (word, bad) := ("abc", "eu" + ":" + "abc" + ":" + "url");
    forall digits, n: I32 ensures !Spells(word, digits, n) {
      assert word[1] == 'b' && (word == digits ==> digits[1] == 'b');
    }
    NonNumbersAreSkipped("eu", word, "url");
    MalformedEntriesAreSkipped(a, bad, b);
    assert a + ",eu:abc:url," + b == a + "," + bad + "," + b;
  }

  // ----- the round trip

  lemma SliceKeepsOut(s: string, lo: nat, hi: nat, c: char)
    requires lo <= hi <= |s| && c !in s
    ensures c !in s[lo..hi]
  {}

  lemma TrimKeepsOut(s: string, c: char)
    requires c !in s
    ensures c !in Trim(s)
  {
    var t := TrimStart(s);
    var u := TrimEnd(t);
    hide TrimStart, TrimEnd;
    assert u == s[|s| - |t|..|s| - |t| + |u|];
    SliceKeepsOut(s, |s| - |t|, |s| - |t| + |u|, c);
  }

  lemma WrittenFieldsAreWellFormed(chunk: string, cfg: ServerCfg, priority: string)
    requires Writes(chunk, cfg, priority) && chunk != "" && Trimmed(chunk) && ',' !in chunk
    ensures WellFormed(cfg)
  {
    hide ParseI32, IsSpace;
    var (r, u) := (|cfg.region|, |cfg.url|);
    assert chunk[..r] == cfg.region && chunk[|chunk| - u..] == cfg.url;
    SliceKeepsOut(chunk, 0, r, ',');
    SliceKeepsOut(chunk, |chunk| - u, |chunk|, ',');
  }

  lemma EntriesAreWellFormed(chunk: string)
    requires chunk != "" && Trimmed(chunk) && ',' !in chunk && ParseEntry(chunk).Some?
    ensures WellFormed(ParseEntry(chunk).value)
  {
    hide ParseEntry, WellFormed, Writes, Trimmed;
    var cfg := ParseEntry(chunk).value;
    EntryIsExact(chunk, cfg);
    var priority :| Writes(chunk, cfg, priority);
    WrittenFieldsAreWellFormed(chunk, cfg, priority);
  }

  lemma OneOrNone(piece: string)
    ensures var r := Trim(piece);
      if r != "" && ParseEntry(r).Some? then
        AllWellFormed(ParsePiece(piece)) <==> WellFormed(ParseEntry(r).value)
      else AllWellFormed(ParsePiece(piece))
  {
    hide Trim, ParseEntry, WellFormed;
  }

  lemma ParsedPieceIsWellFormed(piece: string)
    requires ',' !in piece
    ensures AllWellFormed(ParsePiece(piece))
  {
    hide *;
    var chunk := Trim(piece);
    TrimKeepsOut(piece, ',');
    OneOrNone(piece);
    if chunk != "" && ParseEntry(chunk).Some? {
      EntriesAreWellFormed(chunk);
    }
  }

  lemma {:induction false} ParsedPiecesAreWellFormed(pieces: seq<string>)
    requires forall i | 0 <= i < |pieces| :: ',' !in pieces[i]
    ensures AllWellFormed(ParsePieces(pieces))
  {
    if pieces != [] {
      hide ParsePiece, WellFormed;
      ParsedPieceIsWellFormed(pieces[0]);
      ParsedPiecesAreWellFormed(pieces[1..]);
    }
  }

  /** Whatever the text, every configuration read from it is well formed. */
  lemma ParsedAreWellFormed(s: string)
    ensures AllWellFormed(ParseTurnServers(s))
  {
    PiecesHaveNoSeparator(s, ',');
    ParsedPiecesAreWellFormed(Split(s, ','));
  }

  lemma PrintedEntryParses(cfg: ServerCfg)
    requires WellFormed(cfg)
    ensures ParseTurnServers(PrintEntry(cfg)) == [cfg]
  {
    hide Show, ParseEntry, Trim, Split, IsSpace, ParseI32;
    var (s, p) := (PrintEntry(cfg), Show(cfg.priority));
    NumbersAreExact(p, cfg.priority);
    assert Writes(s, cfg, p);
    WrittenEntryParses(s, cfg, p);
    ShowHasNoComma(cfg.priority);
    assert ',' !in s;
    SplitWithout(s, ',');
    assert s[0] == cfg.region[0] && s[|s| - 1] == cfg.url[|cfg.url| - 1];
    TrimOfTrimmed(s);
    assert ParsePieces([s]) == ParsePiece(s) + ParsePieces([s][1..]) == [cfg] + [];
  }

  lemma ShowHasNoComma(n: I32)
    ensures ',' !in Show(n)
  {}

  lemma BlankParsesToNothing()
    ensures ParseTurnServers("") == []
  {
    var blank := "";
    assert Split(blank, ',') == [blank];
    assert TrimStart(blank) == blank && TrimEnd(blank) == blank;
    assert ParsePieces([blank]) == ParsePiece(blank) + ParsePieces([blank][1..]);
  }

  lemma {:induction false} PrintedListParses(cfgs: seq<ServerCfg>)
    requires AllWellFormed(cfgs)
    ensures ParseTurnServers(Join(PrintAll(cfgs), ",")) == cfgs
  {
    hide WellFormed, PrintEntry, ParseTurnServers;
    var parts := PrintAll(cfgs);
    if cfgs == [] {
      BlankParsesToNothing();
    } else {
      PrintedEntryParses(cfgs[0]);
      if |cfgs| > 1 {
        PrintedListParses(cfgs[1..]);
        assert parts[1..] == PrintAll(cfgs[1..]);
        ParseConcat(parts[0], Join(parts[1..], ","));
      }
    }
  }

  /** Parsing what was printed gives the list back exactly when every entry of it is well formed. */
  lemma PrintParseRoundTrip(cfgs: seq<ServerCfg>)
    ensures ParseTurnServers(Join(PrintAll(cfgs), ",")) == cfgs <==> AllWellFormed(cfgs)
  {
    ParsedAreWellFormed(Join(PrintAll(cfgs), ","));
    if AllWellFormed(cfgs) {
      PrintedListParses(cfgs);
    }
  }

  /** Printing normalises: a list that was parsed survives every further round trip. */
  lemma ParsePrintParse(s: string)
    ensures var cfgs := ParseTurnServers(s); ParseTurnServers(Join(PrintAll(cfgs), ",")) == cfgs
  {
    ParsedAreWellFormed(s);
    PrintedListParses(ParseTurnServers(s));
  }
}
