/** String operations of the source's runtime that the engine relies on: lower-casing, stripping,
  * whitespace splitting, substring tests and decimal rendering of integers. */
module Text {
  /** The characters Python's `str.split()` and `str.strip()` treat as whitespace. */
  predicate IsSpace(c: char)
  {
    c == ' ' || ('\t' <= c <= '\r') || ('\U{1C}' <= c <= '\U{1F}') || c == '\U{85}' || c == '\U{A0}'
    || c == '\U{1680}' || ('\U{2000}' <= c <= '\U{200A}') || c == '\U{2028}' || c == '\U{2029}'
    || c == '\U{202F}' || c == '\U{205F}' || c == '\U{3000}'
  }

  /** A capital of the Cyrillic Supplement blocks whose capitals sit at even code points, each
    * followed by its small letter (among them the Tatar letters Ә, Ө, Ү, Җ, Ң and Һ). */
  predicate EvenPairedCapital(c: char)
  {
    ('\U{460}' <= c <= '\U{481}' || '\U{48A}' <= c <= '\U{4BF}' || '\U{4D0}' <= c <= '\U{52F}')
    && c as int % 2 == 0
  }

  /** A capital of the run U+04C1..U+04CE, where the capitals sit at odd code points. */
  predicate OddPairedCapital(c: char)
  {
    '\U{4C1}' <= c <= '\U{4CE}' && c as int % 2 == 1
  }

  /** Lower-case mapping of one character: the capitals of Basic Latin, Latin-1, Greek (capital
    * sigma always to the medial form), Cyrillic and the Cyrillic Supplement; every other
    * character is kept. */
  function LowerChar(c: char): (r: char)
  {
    if 'A' <= c <= 'Z' || ('\U{C0}' <= c <= '\U{DE}' && c != '\U{D7}')
       || ('\U{391}' <= c <= '\U{3AB}' && c != '\U{3A2}') || '\U{410}' <= c <= '\U{42F}'
    then (c as int + 0x20) as char
    else if '\U{400}' <= c <= '\U{40F}' then (c as int + 0x50) as char
    else if c == '\U{386}' then '\U{3AC}'
    else if '\U{388}' <= c <= '\U{38A}' then (c as int + 0x25) as char
    else if c == '\U{38C}' then '\U{3CC}'
    else if '\U{38E}' <= c <= '\U{38F}' then (c as int + 0x3F) as char
    else if c == '\U{4C0}' then '\U{4CF}'
    else if EvenPairedCapital(c) || OddPairedCapital(c) then (c as int + 1) as char
    else c
  }

  /** A character that lower-casing changes. */
  predicate IsUpper(c: char)
  {
    LowerChar(c) != c
  }

  /** Python's `str.lower()`, restricted to the characters LowerChar maps. */
  function Lower(s: string): (r: string)
    ensures |r| == |s|
  {
    if s == [] then [] else [LowerChar(s[0])] + Lower(s[1..])
  }

  /** Each character of a lower-cased string is its own lower-case mapping. */
  lemma {:induction false} LowerAt(s: string, i: int)
    requires 0 <= i < |s|
    ensures Lower(s)[i] == LowerChar(s[i])
  {
    if i > 0 {
      LowerAt(s[1..], i - 1);
    }
  }

  /** A lower-cased string holds no character that lower-casing would change. */
  lemma LowerHasNoCapital(s: string)
    ensures forall i :: 0 <= i < |s| ==> !IsUpper(Lower(s)[i])
  {
    forall i | 0 <= i < |s| ensures !IsUpper(Lower(s)[i]) {
      LowerAt(s, i);
    }
  }

  /** Lower-casing a lower-cased string changes nothing. */
  lemma {:induction false} LowerIdempotent(s: string)
    ensures Lower(Lower(s)) == Lower(s)
  {
    if s != [] {
      LowerIdempotent(s[1..]);
      assert Lower(s)[1..] == Lower(s[1..]);
    }
  }

  /** `s` with its leading whitespace removed. */
  function TrimStart(s: string): (r: string)
    ensures |r| <= |s| && r == s[|s| - |r|..]
    ensures r == [] || !IsSpace(r[0])
    ensures forall i :: 0 <= i < |s| - |r| ==> IsSpace(s[i])
  {
    if s != [] && IsSpace(s[0]) then TrimStart(s[1..]) else s
  }

  /** `s` with its trailing whitespace removed. */
  function TrimEnd(s: string): (r: string)
    ensures |r| <= |s| && r == s[..|r|]
    ensures r == [] || !IsSpace(r[|r| - 1])
    ensures forall i :: |r| <= i < |s| ==> IsSpace(s[i])
  {
    if s != [] && IsSpace(s[|s| - 1]) then TrimEnd(s[..|s| - 1]) else s
  }

  /** Python's `str.strip()`. */
  function Strip(s: string): (r: string)
    ensures r == [] || (!IsSpace(r[0]) && !IsSpace(r[|r| - 1]))
    ensures (forall i :: 0 <= i < |s| ==> IsSpace(s[i])) <==> r == []
  {
    var t := TrimStart(s);
    var r := TrimEnd(t);
    assert r != [] ==> r[0] == t[0];
    assert t != [] ==> r != [];
    r
  }

  /** Length of the leading run of non-whitespace characters of `s`. */
  function WordLength(s: string): (n: nat)
    ensures n <= |s|
    ensures forall i :: 0 <= i < n ==> !IsSpace(s[i])
    ensures n == |s| || IsSpace(s[n])
  {
    if s == [] || IsSpace(s[0]) then 0 else 1 + WordLength(s[1..])
  }

  /** A non-empty run of non-whitespace characters. */
  predicate IsWord(w: string)
  {
    w != [] && forall i :: 0 <= i < |w| ==> !IsSpace(w[i])
  }

  /** Python's `str.split()` with no separator: the maximal runs of non-whitespace characters. */
  function Words(s: string): (r: seq<string>)
    ensures forall k :: 0 <= k < |r| ==> IsWord(r[k])
    decreases |s|
  {
    if s == [] then []
    else if IsSpace(s[0]) then Words(s[1..])
    else
      var n := WordLength(s);
      FirstWord(s);
      [s[..n]] + Words(s[n..])
  }

  /** A string that starts with a non-whitespace character starts with a word. */
  lemma FirstWord(t: string)
    requires t != [] && !IsSpace(t[0])
    ensures 0 < WordLength(t) <= |t| && IsWord(t[..WordLength(t)])
  {
  }

  /** `a` is a prefix of `b`. */
  predicate IsPrefix(a: string, b: string)
  {
    |a| <= |b| && a == b[..|a|]
  }

  /** Python's `a in b` on strings. */
  predicate IsSubstring(a: string, b: string)
    decreases |b|
  {
    IsPrefix(a, b) || (b != [] && IsSubstring(a, b[1..]))
  }

  /** A substring is never longer than the string that contains it. */
  lemma {:induction false} SubstringLength(a: string, b: string)
    requires IsSubstring(a, b)
    ensures |a| <= |b|
    decreases |b|
  {
    if !IsPrefix(a, b) {
      SubstringLength(a, b[1..]);
    }
  }

  /** Every string occurs in itself. */
  lemma SubstringOfSelf(a: string)
    ensures IsSubstring(a, a)
  {
    assert IsPrefix(a, a);
  }

  /** The decimal digit character for `d`. */
  function DigitChar(d: nat): (c: char)
    requires d < 10
    ensures '0' <= c <= '9' && c as int - '0' as int == d
  {
    ('0' as int + d) as char
  }

  /** Python's `str(n)` for a natural number: its decimal digits without leading zeros. */
  function NatToString(n: nat): (r: string)
    ensures r != []
    ensures forall i :: 0 <= i < |r| ==> '0' <= r[i] <= '9'
    ensures r[|r| - 1] == DigitChar(n % 10)
    ensures |r| == 1 <==> n < 10
  {
    if n < 10 then [DigitChar(n)] else NatToString(n / 10) + [DigitChar(n % 10)]
  }

  /** Python's `str(i)` for an integer. */
  function IntToString(i: int): string
  {
    if i >= 0 then NatToString(i) else "-" + NatToString(-i)
  }

  /** Distinct numbers have distinct decimal renderings. */
  lemma {:induction false} NatToStringInjective(m: nat, n: nat)
    requires NatToString(m) == NatToString(n)
    ensures m == n
    decreases m
  {
    var sm, sn := NatToString(m), NatToString(n);
    assert sm[|sm| - 1] == sn[|sn| - 1];
    if m >= 10 {
      assert n >= 10;
      assert NatToString(m / 10) == sm[..|sm| - 1];
      assert NatToString(n / 10) == sn[..|sn| - 1];
      NatToStringInjective(m / 10, n / 10);
    }
  }
}
