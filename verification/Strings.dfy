/** Text helpers shared by the SQL splitter and the configuration parser:
    trimming, joining and first-occurrence search. */
module Strings {

  /** The Unicode `White_Space` characters, which `str::trim` removes. */
  predicate IsSpace(c: char) {
    var n := c as int;
    9 <= n <= 13 || n == 0x20 || n == 0x85 || n == 0xA0 || n == 0x1680 || 0x2000 <= n <= 0x200A
    || n == 0x2028 || n == 0x2029 || n == 0x202F || n == 0x205F || n == 0x3000
  }

  /** All 25 of them. */
  lemma WhiteSpaceIs(c: char)
    ensures IsSpace(c) <==> c as int in {
      0x9, 0xA, 0xB, 0xC, 0xD, 0x20, 0x85, 0xA0, 0x1680, 0x2000, 0x2001, 0x2002, 0x2003, 0x2004, 0x2005, 0x2006,
      0x2007, 0x2008, 0x2009, 0x200A, 0x2028, 0x2029, 0x202F, 0x205F, 0x3000}
  {}

  predicate AllSpace(s: string) {
    forall i | 0 <= i < |s| :: IsSpace(s[i])
  }

  /** Neither end is white space. */
  predicate Trimmed(s: string) {
    s == [] || (!IsSpace(s[0]) && !IsSpace(s[|s| - 1]))
  }

  function TrimStart(s: string): (r: string)
    ensures |r| <= |s| && r == s[|s| - |r|..] && AllSpace(s[..|s| - |r|])
    ensures r == [] || !IsSpace(r[0])
  {
    if s != [] && IsSpace(s[0]) then TrimStart(s[1..]) else s
  }

  lemma MoreSpace(s: string, n: nat)
    requires n < |s| && AllSpace(s[..|s| - 1][n..]) && IsSpace(s[|s| - 1])
    ensures AllSpace(s[n..])
  {
    hide IsSpace;
    var (front, all) := (s[..|s| - 1][n..], s[n..]);
    forall i | 0 <= i < |all| ensures IsSpace(all[i]) {
      assert i < |front| ==> all[i] == front[i];
    }
  }

  function TrimEnd(s: string): (r: string)
    ensures |r| <= |s| && r == s[..|r|] && AllSpace(s[|r|..])
    ensures r == [] || !IsSpace(r[|r| - 1])
  {
    if s != [] && IsSpace(s[|s| - 1]) then
      var r := TrimEnd(s[..|s| - 1]);
      MoreSpace(s, |r|);
      r
    else s
  }

  function Trim(s: string): (r: string)
    ensures Trimmed(r)
  {
    TrimEnd(TrimStart(s))
  }

  lemma {:induction false} TrimStartDropsSpace(before: string, t: string)
    requires AllSpace(before) && t != [] && !IsSpace(t[0])
    ensures TrimStart(before + t) == t
  {
    if before == [] {
      assert before + t == t;
    } else {
      assert (before + t)[1..] == before[1..] + t;
      TrimStartDropsSpace(before[1..], t);
    }
  }

  lemma {:induction false} TrimEndDropsSpace(t: string, after: string)
    requires AllSpace(after) && t != [] && !IsSpace(t[|t| - 1])
    ensures TrimEnd(t + after) == t
  {
    if after == [] {
      assert t + after == t;
    } else {
      var n := |t + after| - 1;
      assert (t + after)[..n] == t + after[..|after| - 1];
      TrimEndDropsSpace(t, after[..|after| - 1]);
    }
  }

  /** Trimming is determined by its result: cutting white space off both ends so that none
      is left there gives the trim, however it is cut. */
  lemma TrimUnique(before: string, t: string, after: string)
    requires AllSpace(before) && AllSpace(after) && t != [] && Trimmed(t)
    ensures Trim(before + t + after) == t
  {
    assert before + t + after == before + (t + after);
    TrimStartDropsSpace(before, t + after);
    TrimEndDropsSpace(t, after);
  }

  lemma TrimOfTrimmed(t: string)
    requires Trimmed(t)
    ensures Trim(t) == t
  {
    if t != [] {
      TrimUnique([], t, []);
      assert [] + t + [] == t;
    }
  }

  /** The strings of `parts` with `sep` between neighbours. */
  function Join(parts: seq<string>, sep: string): string {
    if |parts| == 0 then [] else if |parts| == 1 then parts[0] else parts[0] + sep + Join(parts[1..], sep)
  }
}
