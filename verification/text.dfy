/** JavaScript strings as sequences of UTF-16 code units, with the string
    methods the data layer uses: `toLowerCase`, `includes`, `trim`,
    `split` on one character, and `join`. */
module Text {

  /** One UTF-16 code unit, the element of a JavaScript string. */
  newtype u16 = x: int | 0 <= x < 0x1_0000

  type Str = seq<u16>

  /** A Dafny string literal as code units, one per character (every
      literal here lies in the Basic Multilingual Plane). */
  function Lit(s: string): (r: Str)
    ensures |r| == |s|
  {
    seq(|s|, i requires 0 <= i < |s| => (s[i] as int % 0x1_0000) as u16)
  }

  const LF: u16 := 0x0A
  const SPACE: u16 := 0x20

  /** The ECMAScript WhiteSpace and LineTerminator code points: the class
      `\s` of a regular expression and what `trim` removes. */
  predicate IsSpace(c: u16) {
    c == 0x09 || c == 0x0A || c == 0x0B || c == 0x0C || c == 0x0D
    || c == 0x20 || c == 0xA0 || c == 0x1680
    || (0x2000 <= c <= 0x200A)
    || c == 0x2028 || c == 0x2029 || c == 0x202F || c == 0x205F
    || c == 0x3000 || c == 0xFEFF
  }

  predicate IsAsciiUpper(c: u16) { 0x41 <= c <= 0x5A }
  predicate IsAsciiLower(c: u16) { 0x61 <= c <= 0x7A }
  predicate IsAsciiDigit(c: u16) { 0x30 <= c <= 0x39 }

  /** The capitals of the Basic Latin and Latin-1 blocks: A-Z and
      U+00C0 to U+00DE except the multiplication sign U+00D7. Each has its
      small letter 32 code units above it. */
  predicate IsLatinUpper(c: u16) {
    IsAsciiUpper(c) || (0xC0 <= c <= 0xDE && c != 0xD7)
  }

  /** One code unit lower-cased: a Latin-1 capital becomes its small
      letter, every other unit is kept. */
  function LowerUnit(c: u16): (d: u16)
    ensures !IsLatinUpper(d)
    ensures IsLatinUpper(c) ==> d as int == c as int + 32
    ensures !IsLatinUpper(c) ==> d == c
  {
    if IsLatinUpper(c) then c + 32 else c
  }

  /** `String.prototype.toLowerCase`, restricted to the Basic Latin and
      Latin-1 blocks, where it maps each code unit to one code unit. */
  function ToLower(s: Str): (r: Str)
    ensures |r| == |s|
    ensures forall i :: 0 <= i < |s| ==> r[i] == LowerUnit(s[i])
  {
    seq(|s|, i requires 0 <= i < |s| => LowerUnit(s[i]))
  }

  /** `needle` occurs in `hay` starting at index `i`. */
  ghost predicate OccursAt(hay: Str, needle: Str, i: int) {
    0 <= i && i + |needle| <= |hay| && hay[i..i + |needle|] == needle
  }

  /** `String.prototype.includes`: a left-to-right scan for `needle`. */
  function Includes(hay: Str, needle: Str): (r: bool)
    ensures r <==> exists i :: OccursAt(hay, needle, i)
    decreases |hay|
  {
    if |needle| > |hay| then
      assert forall i :: !OccursAt(hay, needle, i);
      false
    else if hay[..|needle|] == needle then
      assert OccursAt(hay, needle, 0);
      true
    else
      var rest := Includes(hay[1..], needle);
      ShiftOccurrence(hay, needle);
      rest
  }

  lemma ShiftOccurrence(hay: Str, needle: Str)
    requires |needle| <= |hay| && hay[..|needle|] != needle
    ensures (exists i :: OccursAt(hay[1..], needle, i)) <==> (exists i :: OccursAt(hay, needle, i))
  {
    forall i | OccursAt(hay[1..], needle, i)
      ensures OccursAt(hay, needle, i + 1)
    {
      assert hay[1..][i..i + |needle|] == hay[i + 1..i + 1 + |needle|];
    }
    forall i | OccursAt(hay, needle, i)
      ensures i >= 1 && OccursAt(hay[1..], needle, i - 1)
    {
      assert hay[1..][i - 1..i - 1 + |needle|] == hay[i..i + |needle|];
    }
  }

  /** Number of leading code units that `trim` removes. */
  function LeadingSpace(s: Str): (n: nat)
    ensures n <= |s|
    ensures forall i :: 0 <= i < n ==> IsSpace(s[i])
    ensures n == |s| || !IsSpace(s[n])
    decreases |s|
  {
    if |s| == 0 || !IsSpace(s[0]) then 0 else 1 + LeadingSpace(s[1..])
  }

  /** Number of trailing code units that `trim` removes. */
  function TrailingSpace(s: Str): (n: nat)
    ensures n <= |s|
    ensures forall i :: |s| - n <= i < |s| ==> IsSpace(s[i])
    ensures n == |s| || !IsSpace(s[|s| - n - 1])
    decreases |s|
  {
    if |s| == 0 || !IsSpace(s[|s| - 1]) then 0 else 1 + TrailingSpace(s[..|s| - 1])
  }

  /** Where `trim` cuts the end of `s`: past the last code unit that is not
      white space, or at the end when `s` is all white space. */
  function TrimEnd(s: Str): (e: nat)
    ensures LeadingSpace(s) <= e <= |s|
    ensures LeadingSpace(s) < |s| ==> LeadingSpace(s) < e && !IsSpace(s[e - 1])
    ensures forall i :: e <= i < |s| ==> IsSpace(s[i])
  {
    var a := LeadingSpace(s);
    if a == |s| then |s|
    else
      var t := TrailingSpace(s[a..]);
      assert s[a..][0] == s[a];
      assert forall i :: |s| - t <= i < |s| ==> s[i] == s[a..][i - a];
      assert t < |s| - a ==> s[a..][|s| - a - t - 1] == s[|s| - t - 1];
      |s| - t
  }

  /** `String.prototype.trim`: the infix left after removing leading and
      trailing white space; only white space is removed, and the result
      neither starts nor ends with white space. */
  function Trim(s: Str): (r: Str)
    ensures r == [] || (!IsSpace(r[0]) && !IsSpace(r[|r| - 1]))
    ensures exists a, b :: 0 <= a <= b <= |s| && r == s[a..b]
                           && (forall i :: 0 <= i < a ==> IsSpace(s[i]))
                           && (forall i :: b <= i < |s| ==> IsSpace(s[i]))
    ensures (forall i :: 0 <= i < |s| ==> !IsSpace(s[i])) ==> r == s
  {
    var a := LeadingSpace(s);
    var b := TrimEnd(s);
    assert a < b ==> s[a..b][0] == s[a] && s[a..b][b - a - 1] == s[b - 1];
    assert (forall i :: 0 <= i < |s| ==> !IsSpace(s[i])) ==> a == 0 && b == |s|;
    s[a..b]
  }

  /** Trimming a core that neither starts nor ends with white space, padded
      on both sides with white space, gives the core back. */
  lemma TrimPadded(pre: Str, core: Str, post: Str)
    requires forall i :: 0 <= i < |pre| ==> IsSpace(pre[i])
    requires forall i :: 0 <= i < |post| ==> IsSpace(post[i])
    requires core == [] || (!IsSpace(core[0]) && !IsSpace(core[|core| - 1]))
    ensures Trim(pre + core + post) == core
  {
    var s := pre + core + post;
    var lo, hi := |pre|, |pre| + |core|;
    assert s[lo..hi] == core;
    forall i | 0 <= i < lo ensures IsSpace(s[i]) {
      assert s[i] == pre[i];
    }
    forall i | hi <= i < |s| ensures IsSpace(s[i]) {
      assert s[i] == post[i - hi];
    }
    TrimBounds(s, lo, hi);
  }

  /** When white space surrounds `s[lo..hi]` and that infix neither starts
      nor ends with white space, trimming yields exactly that infix. */
  lemma TrimBounds(s: Str, lo: nat, hi: nat)
    requires lo <= hi <= |s|
    requires forall i :: 0 <= i < lo ==> IsSpace(s[i])
    requires forall i :: hi <= i < |s| ==> IsSpace(s[i])
    requires lo == hi || (!IsSpace(s[lo]) && !IsSpace(s[hi - 1]))
    ensures Trim(s) == s[lo..hi]
  {
    var a, b := TrimWitness(s);
    if lo == hi {
      assert forall i :: 0 <= i < |s| ==> IsSpace(s[i]);
      assert Trim(s) == [];
    } else {
      SameInfix(s, lo, hi, a, b);
    }
  }

  /** The positions where `trim` cuts `s`. */
  lemma TrimWitness(s: Str) returns (a: nat, b: nat)
    ensures a <= b <= |s| && Trim(s) == s[a..b]
    ensures forall i :: 0 <= i < a ==> IsSpace(s[i])
    ensures forall i :: b <= i < |s| ==> IsSpace(s[i])
    ensures a == b || (!IsSpace(s[a]) && !IsSpace(s[b - 1]))
  {
    a, b := LeadingSpace(s), TrimEnd(s);
  }

  /** Two ways of cutting white space off both ends of `s`, each leaving a
      part that neither starts nor ends with white space, cut at the same
      places when the first part is non-empty. */
  lemma SameInfix(s: Str, lo: nat, hi: nat, a: nat, b: nat)
    requires lo < hi <= |s| && a <= b <= |s|
    requires forall i :: 0 <= i < lo ==> IsSpace(s[i])
    requires forall i :: hi <= i < |s| ==> IsSpace(s[i])
    requires !IsSpace(s[lo]) && !IsSpace(s[hi - 1])
    requires forall i :: 0 <= i < a ==> IsSpace(s[i])
    requires forall i :: b <= i < |s| ==> IsSpace(s[i])
    requires a == b || (!IsSpace(s[a]) && !IsSpace(s[b - 1]))
    ensures a == lo && b == hi
  {
    assert a <= lo && hi <= b;
  }

  /** `join(sep)` with a one-code-unit separator. */
  function Join(parts: seq<Str>, sep: u16): (r: Str)
    decreases |parts|
  {
    if |parts| == 0 then []
    else if |parts| == 1 then parts[0]
    else parts[0] + [sep] + Join(parts[1..], sep)
  }

  /** `split(sep)` with a one-code-unit separator: the pieces between
      separators, always at least one (the empty string splits to `[""]`). */
  function Split(s: Str, sep: u16): (r: seq<Str>)
    ensures |r| >= 1
    ensures forall k :: 0 <= k < |r| ==> sep !in r[k]
    decreases |s|
  {
    var i := IndexOfUnit(s, sep);
    if i == -1 then [s] else [s[..i]] + Split(s[i + 1..], sep)
  }

  /** The first index of `c` in `s`, or -1. */
  function IndexOfUnit(s: Str, c: u16): (r: int)
    ensures -1 <= r < |s|
    ensures r >= 0 ==> s[r] == c && c !in s[..r]
    ensures r == -1 <==> c !in s
    decreases |s|
  {
    if |s| == 0 then -1
    else if s[0] == c then 0
    else
      var k := IndexOfUnit(s[1..], c);
      assert k >= 0 ==> s[..k + 1] == [s[0]] + s[1..][..k];
      if k == -1 then -1 else k + 1
  }

  /** Splitting undoes joining when no piece contains the separator. */
  lemma {:induction false} SplitJoin(parts: seq<Str>, sep: u16)
    requires |parts| >= 1
    requires forall k :: 0 <= k < |parts| ==> sep !in parts[k]
    ensures Split(Join(parts, sep), sep) == parts
    decreases |parts|
  {
    var s := Join(parts, sep);
    if |parts| == 1 {
      assert IndexOfUnit(s, sep) == -1;
    } else {
      var p := parts[0];
      var rest := Join(parts[1..], sep);
      assert parts == [p] + parts[1..];
      JoinCons(p, parts[1..], sep);
      FirstSeparator(p, rest, sep);
      SplitJoin(parts[1..], sep);
    }
  }

  /** The first separator of `p + [sep] + rest`, when `p` has none, is the
      one after `p`. */
  lemma FirstSeparator(p: Str, rest: Str, sep: u16)
    requires sep !in p
    ensures var s := p + [sep] + rest;
            IndexOfUnit(s, sep) == |p| && s[..|p|] == p && s[|p| + 1..] == rest
  {
    var s := p + [sep] + rest;
    assert s[..|p|] == p;
    assert s[|p|] == sep;
    assert s[|p| + 1..] == rest;
  }

  /** Joining undoes splitting. */
  lemma {:induction false} JoinSplit(s: Str, sep: u16)
    ensures Join(Split(s, sep), sep) == s
    decreases |s|
  {
    var i := IndexOfUnit(s, sep);
    if i == -1 {
      assert Split(s, sep) == [s];
      assert Join([s], sep) == s;
    } else {
      var tail := Split(s[i + 1..], sep);
      assert Split(s, sep) == [s[..i]] + tail;
      calc {
        Join([s[..i]] + tail, sep);
        { JoinCons(s[..i], tail, sep); }
        s[..i] + [sep] + Join(tail, sep);
        { JoinSplit(s[i + 1..], sep); }
        s[..i] + [sep] + s[i + 1..];
        { SplitAround(s, i); }
        s;
      }
    }
  }

  /** A sequence is the part before index `i`, the element at `i`, and the
      part after it. */
  lemma SplitAround<T>(s: seq<T>, i: nat)
    requires i < |s|
    ensures s == s[..i] + [s[i]] + s[i + 1..]
  {
    assert s[i..] == [s[i]] + s[i + 1..];
    assert s == s[..i] + s[i..];
  }

  /** Joining a piece in front of at least one more. */
  lemma JoinCons(p: Str, parts: seq<Str>, sep: u16)
    requires |parts| >= 1
    ensures Join([p] + parts, sep) == p + [sep] + Join(parts, sep)
  {
    assert ([p] + parts)[1..] == parts;
  }
}
