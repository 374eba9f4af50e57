/** The four-emoji code that both callers compare, from a 32-bit rolling hash over the two DTLS
    fingerprints. */
module VerificationEmoji {

  const EMOJIS: seq<string> := [
    "\U{1F512}", "\U{1F6E1}\U{FE0F}", "\U{1F511}", "\U{1F31F}", "\U{1F3AF}", "\U{1F48E}", "\U{1F525}", "\U{1F30A}",
    "\U{26A1}", "\U{1F3B5}", "\U{1F340}", "\U{1F98B}", "\U{1F308}", "\U{1F680}", "\U{1F3A8}", "\U{1F338}"]

  const VERIFICATION_EMOJI_COUNT := 4

  // ----- signed 32-bit arithmetic

  const TWO32 := 0x1_0000_0000
  const TWO31 := 0x8000_0000

  /** What `| 0` and the shift operators do to their operand. */
  function ToInt32(x: int): (r: int)
    ensures -TWO31 <= r < TWO31 && (r - x) % TWO32 == 0
  {
    (x + TWO31) % TWO32 - TWO31
  }

  function ShiftLeft5(x: int): int { ToInt32(ToInt32(x) * 32) }

  /** One round of the loop: `((hash << 5) - hash + code) | 0`. */
  function Round(hash: int, code: int): int {
    ToInt32(ShiftLeft5(hash) - hash + code)
  }

  /** `x >> k` for a 32-bit x, which rounds down, and `& 0xF`. */
  function Nibble(x: int, k: nat): (r: int)
    ensures 0 <= r < 16
  {
    x / Pow(16, k) % 16
  }

  function Pow(b: nat, e: nat): (r: nat)
    ensures b > 0 ==> r > 0
  {
    if e == 0 then 1 else b * Pow(b, e - 1)
  }

  // ----- the polynomial

  /** The sum of codes[i] * 31^(n-1-i). */
  function Polynomial(s: string): int {
    if s == [] then 0 else s[0] as int * Pow(31, |s| - 1) + Polynomial(s[1..])
  }

  lemma {:induction false} PolynomialSnoc(s: string, c: char)
    ensures Polynomial(s + [c]) == 31 * Polynomial(s) + c as int
  {
    if s == [] {
      assert (s + [c])[1..] == [];
    } else {
      var t := s + [c];
      assert t[1..] == s[1..] + [c];
      PolynomialSnoc(s[1..], c);
      var a, p := s[0] as int, Pow(31, |s| - 1);
      assert Pow(31, |s|) == 31 * p;
      assert a * (31 * p) == 31 * (a * p);
    }
  }

  /** A round multiplies by 31 and adds, up to multiples of 2^32. */
  lemma RoundIsHorner(hash: int, poly: int, code: int)
    requires -TWO31 <= hash < TWO31 && (hash - poly) % TWO32 == 0
    ensures (Round(hash, code) - (31 * poly + code)) % TWO32 == 0
  {
    var k := (hash - poly) / TWO32;
    assert hash == poly + TWO32 * k;
    var s := ShiftLeft5(hash);
    assert ToInt32(hash) == hash;
    var m := (s - hash * 32) / TWO32;
    assert s == hash * 32 + TWO32 * m;
    var x := s - hash + code;
    var n := (Round(hash, code) - x) / TWO32;
    assert Round(hash, code) == x + TWO32 * n;
    assert Round(hash, code) - (31 * poly + code) == TWO32 * (31 * k + m + n);
  }

  // ----- ordering the fingerprints

  /** The order of JavaScript's default sort: by code units. */
  predicate Before(a: string, b: string) {
    b != [] && (a == [] || a[0] < b[0] || (a[0] == b[0] && Before(a[1..], b[1..])))
  }

  lemma {:induction false} BeforeIsTotal(a: string, b: string)
    ensures !(Before(a, b) && Before(b, a))
    ensures Before(a, b) || Before(b, a) || a == b
  {
    if a != [] && b != [] && a[0] == b[0] {
      BeforeIsTotal(a[1..], b[1..]);
      assert a == [a[0]] + a[1..] && b == [b[0]] + b[1..];
    }
  }

  /** `[a, b].sort().join(':')` */
  function Combined(a: string, b: string): string {
    if Before(b, a) then b + ":" + a else a + ":" + b
  }

  /** The four digits, least significant first. */
  function Digit(n: int, i: nat): (d: int)
    requires n >= 0
    ensures 0 <= d < 16
  {
    n / Pow(16, i) % 16
  }

  function Code(localFp: string, remoteFp: string): string {
    if localFp == [] || remoteFp == [] then ""
    else
      var n := Polynomial(Combined(localFp, remoteFp)) % 65536;
      EMOJIS[Digit(n, 0)] + EMOJIS[Digit(n, 1)] + EMOJIS[Digit(n, 2)] + EMOJIS[Digit(n, 3)]
  }

  method GetVerificationEmoji(localFp: string, remoteFp: string) returns (result: string)
    ensures result == Code(localFp, remoteFp)
  {
    result := "";
    if localFp == [] || remoteFp == [] {
      return;
    }
    var combined := Combined(localFp, remoteFp);
    var hash := 0;
    var i := 0;
    while i < |combined|
      invariant 0 <= i <= |combined|
      invariant -TWO31 <= hash < TWO31 && (hash - Polynomial(combined[..i])) % TWO32 == 0
    {
      RoundIsHorner(hash, Polynomial(combined[..i]), combined[i] as int);
      PolynomialSnoc(combined[..i], combined[i]);
      assert combined[..i] + [combined[i]] == combined[..i + 1];
      hash := Round(hash, combined[i] as int);
      i := i + 1;
    }
    assert combined[..i] == combined;
    ghost var n := Polynomial(combined) % 65536;
    forall k: nat | k < 4 ensures Nibble(hash, k) == Digit(n, k) {
      NibbleIsDigit(hash, Polynomial(combined), k);
    }
    i := 0;
    while i < VERIFICATION_EMOJI_COUNT
      invariant 0 <= i <= VERIFICATION_EMOJI_COUNT
      invariant result == Prefix(n, i)
    {
      result := result + EMOJIS[Nibble(hash, i)];
      i := i + 1;
    }
    assert Prefix(n, 4) == Prefix(n, 3) + EMOJIS[Digit(n, 3)];
    assert Prefix(n, 2) == "" + EMOJIS[Digit(n, 0)] + EMOJIS[Digit(n, 1)];
    assert "" + EMOJIS[Digit(n, 0)] == EMOJIS[Digit(n, 0)];
  }

  function Prefix(n: nat, k: nat): string {
    if k == 0 then "" else Prefix(n, k - 1) + EMOJIS[Digit(n, k - 1)]
  }

  lemma Powers()
    ensures Pow(16, 0) == 1 && Pow(16, 1) == 16 && Pow(16, 2) == 256 && Pow(16, 3) == 4096
  {
    assert Pow(16, 2) == 16 * Pow(16, 1) && Pow(16, 3) == 16 * Pow(16, 2);
  }

  lemma Nibble1(r: int, w: int)
    ensures (r + 65536 * w) / 16 % 16 == r / 16 % 16
  {
    assert (r + 65536 * w) / 16 == r / 16 + 4096 * w;
  }

  lemma Nibble2(r: int, w: int)
    ensures (r + 65536 * w) / 256 % 16 == r / 256 % 16
  {
    assert (r + 65536 * w) / 256 == r / 256 + 256 * w;
  }

  lemma Nibble3(r: int, w: int)
    ensures (r + 65536 * w) / 4096 % 16 == r / 4096 % 16
  {
    assert (r + 65536 * w) / 4096 == r / 4096 + 16 * w;
  }

  /** The low nibbles of the hash are the base-16 digits of whatever it is congruent to. */
  lemma NibbleIsDigit(hash: int, poly: int, k: nat)
    requires (hash - poly) % TWO32 == 0 && k < 4
    ensures Nibble(hash, k) == Digit(poly % 65536, k)
  {
    Powers();
    hide Pow;
    var m := (hash - poly) / TWO32;
    var r, w := poly % 65536, poly / 65536 + 65536 * m;
    assert hash == r + 65536 * w;
    if k == 0 {
      assert hash / 1 == hash && r / 1 == r;
    } else if k == 1 {
      Nibble1(r, w);
    } else if k == 2 {
      Nibble2(r, w);
    } else {
      Nibble3(r, w);
    }
  }

  /** The digits of the code are the digits of a number below 65536, least significant first. */
  lemma DigitsMakeTheNumber(n: nat)
    requires n < 65536
    ensures Digit(n, 0) + 16 * Digit(n, 1) + 256 * Digit(n, 2) + 4096 * Digit(n, 3) == n
  {
    Powers();
    hide Pow;
    assert n / 4096 % 16 == n / 4096;
    assert n / 256 == 16 * (n / 4096) + n / 256 % 16;
    assert n / 16 == 16 * (n / 256) + n / 16 % 16;
  }

  /** Both callers see the same code: swapping the local and the remote fingerprint changes
      nothing. */
  lemma BothSidesSeeTheSameCode(localFp: string, remoteFp: string)
    ensures Code(localFp, remoteFp) == Code(remoteFp, localFp)
  {
    BeforeIsTotal(localFp, remoteFp);
  }

  // ----- what both fingerprints contribute

  /** `a` comes first: at the first place where they differ it has the smaller code unit, or it ends. */
  predicate Lesser(a: string, b: string) {
    exists i | 0 <= i <= |a| :: i < |b| && a[..i] == b[..i] && (i < |a| ==> a[i] < b[i])
  }

  lemma {:induction false} BeforeIsLesser(a: string, b: string)
    ensures Before(a, b) <==> Lesser(a, b)
  {
    if b == [] {
    } else if a == [] || a[0] != b[0] {
      assert a[..0] == b[..0];
      if i: nat :| i <= |a| && i < |b| && a[..i] == b[..i] && (i < |a| ==> a[i] < b[i]) {
        assert i > 0 ==> a[..i][0] == b[..i][0];
      }
    } else {
      BeforeIsLesser(a[1..], b[1..]);
      LesserTail(a, b);
    }
  }

  lemma LesserTail(a: string, b: string)
    requires a != [] && b != [] && a[0] == b[0]
    ensures Lesser(a, b) <==> Lesser(a[1..], b[1..])
  {
    if i: nat :| i <= |a| && i < |b| && a[..i] == b[..i] && (i < |a| ==> a[i] < b[i]) {
      assert i > 0;
      assert a[1..][..i - 1] == a[..i][1..] == b[..i][1..] == b[1..][..i - 1];
    }
    if j: nat :| j <= |a| - 1 && j < |b| - 1 && a[1..][..j] == b[1..][..j] && (j < |a| - 1 ==> a[1..][j] < b[1..][j]) {
      assert a[..j + 1] == [a[0]] + a[1..][..j] && b[..j + 1] == [b[0]] + b[1..][..j];
    }
  }

  lemma Spread(c: int, x: int, r: int, y: int)
    ensures (c * x + r) * y == c * (x * y) + r * y
  {
    assert (c * x) * y == c * (x * y);
  }

  lemma {:induction false} PolynomialConcat(s: string, t: string)
    ensures Polynomial(s + t) == Polynomial(s) * Pow(31, |t|) + Polynomial(t)
  {
    if s == [] {
      assert s + t == t;
    } else {
      var (c, k, n) := (s[0] as int, |s| - 1, |t|);
      assert (s + t)[1..] == s[1..] + t && (s + t)[0] == s[0];
      PolynomialConcat(s[1..], t);
      PowSum(k, n);
      Spread(c, Pow(31, k), Polynomial(s[1..]), Pow(31, n));
      assert Polynomial(s + t) == c * Pow(31, k + n) + Polynomial(s[1..] + t);
      assert Polynomial(s) == c * Pow(31, k) + Polynomial(s[1..]);
      hide Polynomial, Pow;
    }
  }

  lemma {:induction false} PowSum(m: nat, n: nat)
    ensures Pow(31, m + n) == Pow(31, m) * Pow(31, n)
  {
    if m > 0 {
      PowSum(m - 1, n);
    }
  }

  /** The four emoji of a number, least significant digit first. */
  function Shown(n: nat): string {
    EMOJIS[n % 16] + EMOJIS[n / 16 % 16] + EMOJIS[n / 256 % 16] + EMOJIS[n / 4096 % 16]
  }

  /** On both sides the code is that of the sum over both fingerprints and the colon between them, the
      lesser fingerprint in front, whichever of them is the local one. */
  lemma CodeIsTheSum(a: string, b: string)
    requires a != [] && b != [] && (Lesser(a, b) || a == b)
    ensures var sum := Polynomial(a) * Pow(31, |b| + 1) + (':' as int) * Pow(31, |b|) + Polynomial(b);
      Code(a, b) == Code(b, a) == Shown(sum % 65536)
  {
    hide Polynomial, Pow, Lesser, Combined, Code, Shown;
    BothWays(a, b);
    SumOfBoth(a, b);
    CodeShows(a, b);
    CodeShows(b, a);
  }

  lemma CodeShows(a: string, b: string)
    requires a != [] && b != []
    ensures Code(a, b) == Shown(Polynomial(Combined(a, b)) % 65536)
  {
    Powers();
    hide Pow, Polynomial, Combined;
    assert forall n: nat :: n / 1 == n;
  }

  lemma BothWays(a: string, b: string)
    requires Lesser(a, b) || a == b
    ensures Combined(a, b) == Combined(b, a) == a + ":" + b
  {
    hide Before, Lesser;
    BeforeIsTotal(a, b);
    BeforeIsLesser(a, b);
  }

  lemma SumOfBoth(a: string, b: string)
    ensures Polynomial(a + ":" + b) ==
              Polynomial(a) * Pow(31, |b| + 1) + (':' as int) * Pow(31, |b|) + Polynomial(b)
  {
    PolynomialConcat(a + ":", b);
    PolynomialSnoc(a, ':');
    assert a + [':'] == a + ":";
    Next31(|b|);
    hide *;
    Assemble(
      Polynomial(a + ":" + b), Polynomial(a + ":"), Polynomial(a), ':' as int, Pow(31, |b|), Pow(31, |b| + 1),
      Polynomial(b));
  }

  lemma Next31(n: nat)
    ensures Pow(31, n + 1) == 31 * Pow(31, n)
  {}

  lemma Assemble(total: int, front: int, p: int, k: int, q: int, q': int, r: int)
    requires total == front * q + r && front == 31 * p + k && q' == 31 * q
    ensures total == p * q' + k * q + r
  {
    Shift(p, k, q);
  }

  lemma Shift(p: int, k: int, q: int)
    ensures (31 * p + k) * q == p * (31 * q) + k * q
  {
    assert (31 * p) * q == p * (31 * q);
  }

  lemma EitherIsLesser(a: string, b: string)
    ensures Lesser(a, b) || Lesser(b, a) || a == b
  {
    BeforeIsTotal(a, b);
    BeforeIsLesser(a, b);
    BeforeIsLesser(b, a);
  }

  /** There is a code exactly when both fingerprints are there. */
  lemma CodeNeedsBoth(a: string, b: string)
    ensures Code(a, b) == "" <==> a == "" || b == ""
  {
    if a != [] && b != [] {
      CodeShows(a, b);
      var sum := Polynomial(Combined(a, b)) % 65536;
      assert EMOJIS[sum % 16] != "";
      hide Polynomial, Combined;
    }
  }

  // ----- what the emoji tell apart

  /** No two emoji of the table begin alike. */
  lemma EmojiBeginDifferently(i: nat, j: nat)
    requires i < 16 && j < 16 && EMOJIS[i][0] == EMOJIS[j][0]
    ensures i == j
  {}

  lemma FirstEmojiIsRead(i: nat, j: nat, s: string, t: string)
    requires i < 16 && j < 16 && EMOJIS[i] + s == EMOJIS[j] + t
    ensures i == j && s == t
  {
    assert (EMOJIS[i] + s)[0] == EMOJIS[i][0] && (EMOJIS[j] + t)[0] == EMOJIS[j][0];
    EmojiBeginDifferently(i, j);
    assert s == (EMOJIS[i] + s)[|EMOJIS[i]|..] && t == (EMOJIS[j] + t)[|EMOJIS[j]|..];
  }

  /** Four emoji, whatever they are, can be read off their text again. */
  lemma EmojiAreRead(a: seq<nat>, b: seq<nat>)
    requires |a| == |b| == 4 && forall k | 0 <= k < 4 :: a[k] < 16 && b[k] < 16
    requires EMOJIS[a[0]] + EMOJIS[a[1]] + EMOJIS[a[2]] + EMOJIS[a[3]]
             == EMOJIS[b[0]] + EMOJIS[b[1]] + EMOJIS[b[2]] + EMOJIS[b[3]]
    ensures a == b
  {
    var (s, t) := (EMOJIS[a[2]] + EMOJIS[a[3]], EMOJIS[b[2]] + EMOJIS[b[3]]);
    FourApart(EMOJIS[a[0]], EMOJIS[a[1]], EMOJIS[a[2]], EMOJIS[a[3]]);
    FourApart(EMOJIS[b[0]], EMOJIS[b[1]], EMOJIS[b[2]], EMOJIS[b[3]]);
    FirstEmojiIsRead(a[0], b[0], EMOJIS[a[1]] + s, EMOJIS[b[1]] + t);
    FirstEmojiIsRead(a[1], b[1], s, t);
    FirstEmojiIsRead(a[2], b[2], EMOJIS[a[3]], EMOJIS[b[3]]);
    assert EMOJIS[a[3]] + "" == EMOJIS[a[3]] && EMOJIS[b[3]] + "" == EMOJIS[b[3]];
    FirstEmojiIsRead(a[3], b[3], "", "");
  }

  lemma FourApart(p: string, q: string, r: string, s: string)
    ensures p + q + r + s == p + (q + (r + s))
  {}

  function FourDigits(n: nat): (d: seq<nat>)
    ensures |d| == 4 && forall k | 0 <= k < 4 :: d[k] < 16
  {
    [n % 16, n / 16 % 16, n / 256 % 16, n / 4096 % 16]
  }

  function Number(d: seq<nat>): nat
    requires |d| == 4
  {
    d[0] + 16 * d[1] + 256 * d[2] + 4096 * d[3]
  }

  lemma NumberOfDigits(n: nat)
    requires n < 65536
    ensures Number(FourDigits(n)) == n
  {
    DigitsMakeTheNumber(n);
    Powers();
    hide Pow;
  }

  lemma ShownByDigits(n: nat)
    ensures var d := FourDigits(n); Shown(n) == EMOJIS[d[0]] + EMOJIS[d[1]] + EMOJIS[d[2]] + EMOJIS[d[3]]
  {}

  /** The code tells the numbers below 65536 apart: all of its four emoji count, each at its place. */
  lemma CodesDiffer(m: nat, n: nat)
    requires m < 65536 && n < 65536 && Shown(m) == Shown(n)
    ensures m == n
  {
    hide *;
    ShownByDigits(m);
    ShownByDigits(n);
    EmojiAreRead(FourDigits(m), FourDigits(n));
    NumberOfDigits(m);
    NumberOfDigits(n);
  }
}
