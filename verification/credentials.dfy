/** Credential rules of the account layer: the e-mail pattern, the password
    policy and the password digest (app.js:51-61, app.js:96-108). */
module Credentials {
  import opened Seqs
  import opened Text

  const AT: u16 := 0x40
  const DOT: u16 := 0x2E

  // ---------------------------------------------------------------------
  // E-mail: /^[^\s@]+@[^\s@]+\.[^\s@]+$/
  // ---------------------------------------------------------------------

  /** A code unit of the class `[^\s@]`. */
  predicate EmailUnit(c: u16) { !IsSpace(c) && c != AT }

  predicate AllEmailUnits(t: Str) {
    forall j :: 0 <= j < |t| ==> EmailUnit(t[j])
  }

  /** `s` is `A @ B . C` with the `@` at index `i` and the `.` at index `k`,
      each of A, B, C a non-empty run of `[^\s@]`. */
  ghost predicate EmailSplit(s: Str, i: int, k: int) {
    && 1 <= i && i + 2 <= k && k + 2 <= |s|
    && s[i] == AT && s[k] == DOT
    && AllEmailUnits(s[..i]) && AllEmailUnits(s[i + 1..k]) && AllEmailUnits(s[k + 1..])
  }

  /** The language of the e-mail regular expression. */
  ghost predicate MatchesEmailPattern(s: Str) {
    exists i, k :: EmailSplit(s, i, k)
  }

  /** `isValidEmail`: the local part runs up to the first `@`; the rest must
      hold no `@` and no white space and have a `.` strictly inside it. */
  function IsValidEmail(s: Str): (r: bool)
    ensures r <==> MatchesEmailPattern(s)
  {
    var i := IndexOfUnit(s, AT);
    if i < 1 then
      NoEmailWithoutAt(s, i);
      false
    else
      var d := s[i + 1..];
      var ok := AllEmailUnits(s[..i]) && AllEmailUnits(d) && |d| >= 3
                && IndexOfUnit(d[1..|d| - 1], DOT) != -1;
      EmailScan(s, i, ok);
      ok
  }

  lemma NoEmailWithoutAt(s: Str, i: int)
    requires i == IndexOfUnit(s, AT) && i < 1
    ensures !MatchesEmailPattern(s)
  {
  }

  lemma EmailScan(s: Str, i: int, ok: bool)
    requires i == IndexOfUnit(s, AT) && i >= 1
    requires var d := s[i + 1..];
             ok == (AllEmailUnits(s[..i]) && AllEmailUnits(d) && |d| >= 3
                    && IndexOfUnit(d[1..|d| - 1], DOT) != -1)
    ensures ok <==> MatchesEmailPattern(s)
  {
    if ok {
      ScanFindsSplit(s, i);
    }
    if MatchesEmailPattern(s) {
      var a, k :| EmailSplit(s, a, k);
      SplitPassesScan(s, i, a, k);
    }
  }

  /** A successful scan yields the split the pattern asks for. */
  lemma ScanFindsSplit(s: Str, i: int)
    requires i == IndexOfUnit(s, AT) && i >= 1
    requires var d := s[i + 1..];
             AllEmailUnits(s[..i]) && AllEmailUnits(d) && |d| >= 3
             && IndexOfUnit(d[1..|d| - 1], DOT) != -1
    ensures MatchesEmailPattern(s)
  {
    var d := s[i + 1..];
    var j := IndexOfUnit(d[1..|d| - 1], DOT);
    var k := i + 2 + j;
    assert s[k] == d[1..|d| - 1][j];
    var b := s[i + 1..k];
    var c := s[k + 1..];
    assert AllEmailUnits(b) by {
      forall t | 0 <= t < |b| ensures EmailUnit(b[t]) {
        assert b[t] == d[t];
      }
    }
    assert AllEmailUnits(c) by {
      forall t | 0 <= t < |c| ensures EmailUnit(c[t]) {
        assert c[t] == d[t + j + 2];
      }
    }
    assert EmailSplit(s, i, k);
  }

  /** Any split the pattern accepts passes the scan. */
  lemma SplitPassesScan(s: Str, i: int, a: int, k: int)
    requires i == IndexOfUnit(s, AT) && EmailSplit(s, a, k)
    ensures i == a
    ensures var d := s[i + 1..];
            AllEmailUnits(s[..i]) && AllEmailUnits(d) && |d| >= 3
            && IndexOfUnit(d[1..|d| - 1], DOT) != -1
  {
    assert AT !in s[..a] by {
      forall t | 0 <= t < a ensures s[..a][t] != AT {
        assert EmailUnit(s[..a][t]);
      }
    }
    var d := s[a + 1..];
    var b := s[a + 1..k];
    var c := s[k + 1..];
    assert d[1..|d| - 1][k - a - 2] == DOT;
    assert AllEmailUnits(d) by {
      forall t | 0 <= t < |d| ensures EmailUnit(d[t]) {
        if t < k - a - 1 {
          assert d[t] == b[t];
        } else if t > k - a - 1 {
          assert d[t] == c[t - (k - a)];
        } else {
          assert d[t] == DOT;
        }
      }
    }
  }

  // ---------------------------------------------------------------------
  // Password policy
  // ---------------------------------------------------------------------

  predicate IsAsciiLetter(c: u16) { IsAsciiUpper(c) || IsAsciiLower(c) }

  /** `isValidPassword`: at least 6 code units, one of them an ASCII letter
      (`/[a-zA-Z]/`) and one an ASCII digit (`/[0-9]/`). */
  function IsValidPassword(p: Str): (r: bool)
    ensures r <==> && |p| >= 6
                   && (exists i :: 0 <= i < |p| && IsAsciiLetter(p[i]))
                   && (exists i :: 0 <= i < |p| && IsAsciiDigit(p[i]))
  {
    if |p| < 6 then false
    else FindIndex(p, IsAsciiLetter) != -1 && FindIndex(p, IsAsciiDigit) != -1
  }

  // ---------------------------------------------------------------------
  // Password digest
  // ---------------------------------------------------------------------

  const TWO_31: int := 0x8000_0000
  const TWO_32: int := 0x1_0000_0000

  predicate IsInt32(x: int) { -TWO_31 <= x < TWO_31 }

  /** ECMAScript ToInt32: the 32-bit two's-complement value congruent to `x`. */
  function ToInt32(x: int): (r: int)
    ensures IsInt32(r)
    ensures (x - r) % TWO_32 == 0
    ensures IsInt32(x) ==> r == x
  {
    (x + TWO_31) % TWO_32 - TWO_31
  }

  lemma ToInt32Shift(x: int, j: int)
    ensures ToInt32(x + j * TWO_32) == ToInt32(x)
  {
    assert (x + j * TWO_32 + TWO_31) % TWO_32 == (x + TWO_31) % TWO_32;
  }

  /** One round of `hashPassword`'s loop: the hash shifted left by five
      (wrapping to 32 bits), minus the hash, plus the code unit, and the sum
      wrapped to 32 bits by and-ing the hash with itself. */
  function HashStep(h: int, c: u16): (r: int)
    requires IsInt32(h)
    ensures IsInt32(r)
  {
    ToInt32(ToInt32(h * 32) - h + c as int)
  }

  /** The 32-bit rolling hash of `hashPassword`, folded over the code units
      from left to right, starting from 0. */
  function HashCode(p: Str): (r: int)
    ensures IsInt32(r)
    decreases |p|
  {
    if |p| == 0 then 0 else HashStep(HashCode(p[..|p| - 1]), p[|p| - 1])
  }

  /** The same polynomial over unbounded integers: sum of p[i] * 31^(n-1-i). */
  function Poly(p: Str): int
    decreases |p|
  {
    if |p| == 0 then 0 else 31 * Poly(p[..|p| - 1]) + p[|p| - 1] as int
  }

  /** One step is `31 * h + c` wrapped to 32 bits. */
  lemma HashStepIsTimes31(h: int, c: u16)
    requires IsInt32(h)
    ensures HashStep(h, c) == ToInt32(31 * h + c as int)
  {
    var w := ToInt32(h * 32);
    var j := (h * 32 + TWO_31) / TWO_32;
    assert w == h * 32 - j * TWO_32;
    ToInt32Shift(31 * h + c as int, -j);
  }

  /** Wrapping after every round equals wrapping once at the end. */
  lemma {:induction false} HashCodeClosedForm(p: Str)
    ensures HashCode(p) == ToInt32(Poly(p))
    decreases |p|
  {
    if |p| != 0 {
      var q := p[..|p| - 1];
      var c := p[|p| - 1];
      HashCodeClosedForm(q);
      HashStepIsTimes31(HashCode(q), c);
      var j := (Poly(q) + TWO_31) / TWO_32;
      assert HashCode(q) == Poly(q) - j * TWO_32;
      ToInt32Shift(31 * Poly(q) + c as int, -31 * j);
    }
  }

  /** Lower-case hexadecimal digit of `d`, as `Number.prototype.toString(16)`. */
  function HexDigit(d: nat): (c: u16)
    requires d < 16
  {
    if d < 10 then (0x30 + d) as u16 else (0x61 + d - 10) as u16
  }

  /** `[0-9a-f]`. */
  predicate IsHexDigit(c: u16) { 0x30 <= c <= 0x39 || 0x61 <= c <= 0x66 }

  function HexValue(c: u16): nat {
    if 0x30 <= c <= 0x39 then (c - 0x30) as nat
    else if 0x61 <= c <= 0x66 then (c - 0x61 + 10) as nat
    else 0
  }

  /** `n.toString(16)` for a non-negative integer: no leading zeros, "0"
      for zero. */
  function Hex(n: nat): (r: Str)
    ensures |r| >= 1
    ensures |r| > 1 ==> r[0] != HexDigit(0)
    ensures forall j :: 0 <= j < |r| ==> IsHexDigit(r[j])
    decreases n
  {
    if n < 16 then [HexDigit(n)] else Hex(n / 16) + [HexDigit(n % 16)]
  }

  /** Reading a hexadecimal string back. */
  function ParseHex(s: Str): nat
    decreases |s|
  {
    if |s| == 0 then 0 else 16 * ParseHex(s[..|s| - 1]) + HexValue(s[|s| - 1])
  }

  lemma {:induction false} ParseHexOfHex(n: nat)
    ensures ParseHex(Hex(n)) == n
    decreases n
  {
    if n >= 16 {
      ParseHexOfHex(n / 16);
      var s := Hex(n);
      assert s[..|s| - 1] == Hex(n / 16);
    }
  }

  function Abs(x: int): nat { if x < 0 then -x else x }

  const HASH_PREFIX: Str := Lit("hash_")

  /** The stored digest: the prefix `hash_` and the absolute value of the
      hash in lower-case hexadecimal. */
  function Digest(h: int): Str {
    HASH_PREFIX + Hex(Abs(h))
  }

  /** `hashPassword`. */
  function HashPassword(p: Str): (d: Str)
    ensures |d| > |HASH_PREFIX| && d[..|HASH_PREFIX|] == HASH_PREFIX
    ensures forall j :: |HASH_PREFIX| <= j < |d| ==> IsHexDigit(d[j])
  {
    Digest(HashCode(p))
  }

  /** `verifyPassword`: recompute the digest and compare. */
  function VerifyPassword(p: Str, digest: Str): (ok: bool)
  {
    HashPassword(p) == digest
  }

  /** Two digests agree exactly when the hash codes agree up to sign. */
  lemma DigestEqualIff(a: int, b: int)
    ensures Digest(a) == Digest(b) <==> Abs(a) == Abs(b)
  {
    if Digest(a) == Digest(b) {
      assert Hex(Abs(a)) == Digest(a)[|HASH_PREFIX|..];
      assert Hex(Abs(b)) == Digest(b)[|HASH_PREFIX|..];
      ParseHexOfHex(Abs(a));
      ParseHexOfHex(Abs(b));
    }
  }

  /** A password is accepted against a stored digest exactly when its 32-bit
      hash code equals the original's up to sign. */
  lemma VerifyAcceptsIff(p: Str, q: Str)
    ensures VerifyPassword(q, HashPassword(p)) <==> Abs(HashCode(q)) == Abs(HashCode(p))
  {
    DigestEqualIff(HashCode(q), HashCode(p));
  }

  /** Equal hash codes stay equal under a common suffix. */
  lemma {:induction false} SameCodeExtends(a: Str, b: Str, x: Str)
    requires HashCode(a) == HashCode(b)
    ensures HashCode(a + x) == HashCode(b + x)
    decreases |x|
  {
    if |x| != 0 {
      var y := x[..|x| - 1];
      var c := x[|x| - 1];
      SameCodeExtends(a, b, y);
      assert x == y + [c];
      assert a + x == (a + y) + [c];
      assert b + x == (b + y) + [c];
      HashCodeSnoc(a + y, c);
      HashCodeSnoc(b + y, c);
    } else {
      assert a + x == a && b + x == b;
    }
  }

  /** One more code unit is one more round of the hash. */
  lemma HashCodeSnoc(p: Str, c: u16)
    ensures HashCode(p + [c]) == HashStep(HashCode(p), c)
  {
    assert (p + [c])[..|p|] == p;
  }

  /** The digest is not collision resistant: "Aa1234" and "BB1234" are
      both valid passwords, and each is accepted for the other's digest. */
  lemma CollidingPasswords()
    ensures var p: Str := [0x41, 0x61, 0x31, 0x32, 0x33, 0x34];
            var q: Str := [0x42, 0x42, 0x31, 0x32, 0x33, 0x34];
            p != q && IsValidPassword(p) && IsValidPassword(q)
            && VerifyPassword(q, HashPassword(p))
  {
    var p: Str := [0x41, 0x61, 0x31, 0x32, 0x33, 0x34];
    var q: Str := [0x42, 0x42, 0x31, 0x32, 0x33, 0x34];
    assert p[0] != q[0];
    LetterThenDigit(p);
    LetterThenDigit(q);
    SameCodeAa1234();
    VerifyAcceptsIff(p, q);
  }

  /** A six-unit password with a letter first and a digit third passes the
      policy. */
  lemma LetterThenDigit(p: Str)
    requires |p| == 6 && IsAsciiLetter(p[0]) && IsAsciiDigit(p[2])
    ensures IsValidPassword(p)
  {
  }

  /** "Aa1234" and "BB1234" share a hash code. */
  lemma SameCodeAa1234()
    ensures HashCode([0x41, 0x61, 0x31, 0x32, 0x33, 0x34])
            == HashCode([0x42, 0x42, 0x31, 0x32, 0x33, 0x34])
  {
    var a: Str := [0x41, 0x61];
    var b: Str := [0x42, 0x42];
    var x: Str := [0x31, 0x32, 0x33, 0x34];
    TwoUnitCollision();
    SameCodeExtends(a, b, x);
    assert a + x == [0x41, 0x61, 0x31, 0x32, 0x33, 0x34];
    assert b + x == [0x42, 0x42, 0x31, 0x32, 0x33, 0x34];
  }

  /** "Aa" and "BB" share a hash code: 65 * 31 + 97 = 66 * 31 + 66. */
  lemma TwoUnitCollision()
    ensures HashCode([0x41, 0x61]) == HashCode([0x42, 0x42])
  {
    var a: Str := [0x41, 0x61];
    var b: Str := [0x42, 0x42];
    assert a[..1] == [0x41];
    assert b[..1] == [0x42];
    assert HashCode([0x41]) == 65;
    assert HashCode([0x42]) == 66;
    assert HashCode(a) == 2112;
    assert HashCode(b) == 2112;
  }
}
