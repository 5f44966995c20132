/**
  ASCII character classes and the string primitives the Python code relies on:
  `str.isspace`, `str.lower`, `str.strip` and the ordering of `str` values.
  Characters outside ASCII are treated as ordinary non-space, non-letter
  characters.
*/
module Text {

  /** Python's `str.isspace` restricted to ASCII: tab, line feed, vertical tab,
      form feed, carriage return, the four separators 0x1C..0x1F, and space.
      The same set is matched by `\s` in a regular expression over `str`. */
  predicate IsSpace(c: char) {
    var n := c as int;
    n == 32 || 9 <= n <= 13 || 28 <= n <= 31
  }

  predicate IsUpper(c: char) {
    'A' <= c <= 'Z'
  }

  /** A character of the class `[a-z0-9]`. */
  predicate IsLowerAlnum(c: char) {
    'a' <= c <= 'z' || '0' <= c <= '9'
  }

  /** `c.lower()` on ASCII. */
  function LowerChar(c: char): (d: char)
    ensures !IsUpper(d)
    ensures IsUpper(c) <==> d != c
    ensures IsSpace(d) <==> IsSpace(c)
    ensures IsLowerAlnum(d) <==> (IsLowerAlnum(c) || IsUpper(c))
  {
    if IsUpper(c) then (c as int + 32) as char else c
  }

  /** `s.lower()` on ASCII. */
  function Lower(s: string): (r: string)
    ensures |r| == |s|
    ensures forall i :: 0 <= i < |s| ==> r[i] == LowerChar(s[i])
  {
    seq(|s|, i requires 0 <= i < |s| => LowerChar(s[i]))
  }

  lemma LowerIdempotent(s: string)
    ensures Lower(Lower(s)) == Lower(s)
  {
  }

  /** Removes the longest prefix of `s` whose characters all satisfy `p`. */
  function DropLeading(s: string, p: char -> bool): (r: string)
    ensures |r| <= |s| && r == s[|s| - |r|..]
    ensures r == [] || !p(r[0])
    ensures forall i :: 0 <= i < |s| - |r| ==> p(s[i])
  {
    if s != [] && p(s[0]) then DropLeading(s[1..], p) else s
  }

  /** Removes the longest suffix of `s` whose characters all satisfy `p`. */
  function DropTrailing(s: string, p: char -> bool): (r: string)
    ensures |r| <= |s| && r == s[..|r|]
    ensures r == [] || !p(r[|r| - 1])
    ensures forall i :: |r| <= i < |s| ==> p(s[i])
  {
    if s != [] && p(s[|s| - 1]) then DropTrailing(s[..|s| - 1], p) else s
  }

  /** The longest prefix of `s` none of whose characters satisfies `p`. */
  function TakeUntil(s: string, p: char -> bool): (r: string)
    ensures |r| <= |s| && r == s[..|r|]
    ensures forall i :: 0 <= i < |r| ==> !p(r[i])
    ensures |r| < |s| ==> p(s[|r|])
  {
    if s == [] || p(s[0]) then [] else [s[0]] + TakeUntil(s[1..], p)
  }

  /** `s.strip()`: `s` without its leading and trailing whitespace. */
  function Strip(s: string): (r: string)
    ensures r == [] || (!IsSpace(r[0]) && !IsSpace(r[|r| - 1]))
  {
    DropTrailing(DropLeading(s, IsSpace), IsSpace)
  }

  /** What `Strip` removes is whitespace at either end and nothing else. */
  lemma StripSlice(s: string) returns (i: nat, j: nat)
    ensures i <= j <= |s| && Strip(s) == s[i..j]
    ensures forall k :: 0 <= k < i ==> IsSpace(s[k])
    ensures forall k :: j <= k < |s| ==> IsSpace(s[k])
  {
    var a := DropLeading(s, IsSpace);
    var b := DropTrailing(a, IsSpace);
    i, j := |s| - |a|, |s| - |a| + |b|;
    assert b == s[i..j];
  }

  /** The order of Python `str` values: lexicographic by code point, a proper
      prefix coming first. */
  predicate LexLess(a: string, b: string) {
    if a == [] then b != []
    else if b == [] then false
    else if a[0] != b[0] then a[0] < b[0]
    else LexLess(a[1..], b[1..])
  }

  lemma {:induction false} LexLessIrreflexive(a: string)
    ensures !LexLess(a, a)
  {
    if a != [] {
      LexLessIrreflexive(a[1..]);
    }
  }

  lemma {:induction false} LexLessTransitive(a: string, b: string, c: string)
    requires LexLess(a, b) && LexLess(b, c)
    ensures LexLess(a, c)
  {
    if a != [] && b != [] && c != [] && a[0] == b[0] && b[0] == c[0] {
      LexLessTransitive(a[1..], b[1..], c[1..]);
    }
  }

  lemma {:induction false} LexLessTotal(a: string, b: string)
    requires a != b
    ensures LexLess(a, b) || LexLess(b, a)
  {
    if a != [] && b != [] && a[0] == b[0] {
      assert a == [a[0]] + a[1..] && b == [b[0]] + b[1..];
      LexLessTotal(a[1..], b[1..]);
    }
  }

  lemma {:induction false} LexLessAsymmetric(a: string, b: string)
    requires LexLess(a, b)
    ensures !LexLess(b, a)
  {
    if a != [] && b != [] && a[0] == b[0] {
      LexLessAsymmetric(a[1..], b[1..]);
    }
  }
}
