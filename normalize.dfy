/**
  `normalize_answer`, shared verbatim by the judge and the player scaffold:
  strip, lowercase, collapse each whitespace run to one space, then remove a
  leading and a trailing run of characters outside `[a-z0-9]`.
*/
module Normalize {
  import opened Text

  predicate IsNotLowerAlnum(c: char) {
    !IsLowerAlnum(c)
  }

  /** `re.sub(r"\s+", " ", s)`. `inRun` says that the character before `s`
      was whitespace that has already been written out as a space. */
  function CollapseSpaces(s: string, inRun: bool): (r: string)
    ensures |r| <= |s|
    ensures forall i :: 0 <= i < |r| && IsSpace(r[i]) ==> r[i] == ' '
    ensures forall i :: 0 <= i < |r| - 1 ==> !(IsSpace(r[i]) && IsSpace(r[i + 1]))
    ensures inRun && r != [] ==> !IsSpace(r[0])
    ensures (forall i :: 0 <= i < |s| ==> !IsUpper(s[i])) ==> forall i :: 0 <= i < |r| ==> !IsUpper(r[i])
  {
    if s == [] then []
    else if IsSpace(s[0]) then
      if inRun then CollapseSpaces(s[1..], true) else [' '] + CollapseSpaces(s[1..], true)
    else [s[0]] + CollapseSpaces(s[1..], false)
  }

  /** A character other than whitespace is copied, and ends any run. */
  lemma CollapseKeeps(c: char, s: string, inRun: bool)
    requires !IsSpace(c)
    ensures CollapseSpaces([c] + s, inRun) == [c] + CollapseSpaces(s, false)
  {
    assert ([c] + s)[1..] == s;
  }

  /** A whitespace run, however long, becomes one space. */
  lemma {:induction false} CollapseRun(run: string, s: string)
    requires run != [] && forall i :: 0 <= i < |run| ==> IsSpace(run[i])
    ensures CollapseSpaces(run + s, false) == [' '] + CollapseSpaces(s, true)
  {
    assert (run + s)[1..] == run[1..] + s;
    CollapseInRun(run[1..], s);
  }

  /** Inside a run, further whitespace writes nothing. */
  lemma {:induction false} CollapseInRun(run: string, s: string)
    requires forall i :: 0 <= i < |run| ==> IsSpace(run[i])
    ensures CollapseSpaces(run + s, true) == CollapseSpaces(s, true)
  {
    if run != [] {
      assert (run + s)[1..] == run[1..] + s;
      CollapseInRun(run[1..], s);
    } else {
      assert run + s == s;
    }
  }

  /** `re.sub(r"^[^a-z0-9]+|[^a-z0-9]+$", "", s)` on a string without line breaks. */
  function TrimNonAlnum(s: string): (r: string)
    ensures r == [] || (IsLowerAlnum(r[0]) && IsLowerAlnum(r[|r| - 1]))
  {
    DropTrailing(DropLeading(s, IsNotLowerAlnum), IsNotLowerAlnum)
  }

  /** What `TrimNonAlnum` removes is a run outside `[a-z0-9]` at either end. */
  lemma TrimSlice(s: string) returns (i: nat, j: nat)
    ensures i <= j <= |s| && TrimNonAlnum(s) == s[i..j]
    ensures forall k :: 0 <= k < i ==> !IsLowerAlnum(s[k])
    ensures forall k :: j <= k < |s| ==> !IsLowerAlnum(s[k])
  {
    var a := DropLeading(s, IsNotLowerAlnum);
    var b := DropTrailing(a, IsNotLowerAlnum);
    i, j := |s| - |a|, |s| - |a| + |b|;
    assert b == s[i..j];
  }

  /** `normalize_answer(text)`. */
  function NormalizeAnswer(text: string): string {
    TrimNonAlnum(CollapseSpaces(Lower(Strip(text)), false))
  }

  /** The shape of every normalised answer: empty, or starting and ending with
      `[a-z0-9]`; no upper-case letter; the only whitespace is a single space
      between two non-whitespace characters. */
  predicate IsCanonical(s: string) {
    && (s == [] || (IsLowerAlnum(s[0]) && IsLowerAlnum(s[|s| - 1])))
    && (forall i :: 0 <= i < |s| ==> !IsUpper(s[i]))
    && (forall i :: 0 <= i < |s| && IsSpace(s[i]) ==> s[i] == ' ')
    && (forall i :: 0 <= i < |s| - 1 ==> !(IsSpace(s[i]) && IsSpace(s[i + 1])))
  }

  /** The collapse step already has every property of a canonical string but
      the first and last characters. */
  predicate SpacesCanonical(s: string) {
    && (forall i :: 0 <= i < |s| ==> !IsUpper(s[i]))
    && (forall i :: 0 <= i < |s| && IsSpace(s[i]) ==> s[i] == ' ')
    && (forall i :: 0 <= i < |s| - 1 ==> !(IsSpace(s[i]) && IsSpace(s[i + 1])))
  }

  lemma SliceSpacesCanonical(s: string, i: nat, j: nat)
    requires i <= j <= |s| && SpacesCanonical(s)
    ensures SpacesCanonical(s[i..j])
  {
    var r := s[i..j];
    assert forall k :: 0 <= k < |r| ==> r[k] == s[i + k];
  }

  lemma NormalizeIsCanonical(text: string)
    ensures IsCanonical(NormalizeAnswer(text))
    ensures |NormalizeAnswer(text)| <= |text|
  {
    var l := Lower(Strip(text));
    assert forall k :: 0 <= k < |l| ==> !IsUpper(l[k]);
    var c := CollapseSpaces(l, false);
    assert SpacesCanonical(c);
    var i, j := TrimSlice(c);
    SliceSpacesCanonical(c, i, j);
  }

  lemma {:induction false} CollapseFixed(s: string, inRun: bool)
    requires forall i :: 0 <= i < |s| && IsSpace(s[i]) ==> s[i] == ' '
    requires forall i :: 0 <= i < |s| - 1 ==> !(IsSpace(s[i]) && IsSpace(s[i + 1]))
    requires inRun && s != [] ==> !IsSpace(s[0])
    ensures CollapseSpaces(s, inRun) == s
  {
    if s != [] {
      CollapseFixed(s[1..], IsSpace(s[0]));
      assert s == [s[0]] + s[1..];
    }
  }

  /** A canonical string is left as it is. */
  lemma CanonicalIsFixed(s: string)
    requires IsCanonical(s)
    ensures NormalizeAnswer(s) == s
  {
    StripFixed(s);
    assert Lower(s) == s;
    CollapseFixed(s, false);
    TrimFixed(s);
  }

  lemma StripFixed(s: string)
    requires s == [] || (!IsSpace(s[0]) && !IsSpace(s[|s| - 1]))
    ensures Strip(s) == s
  {
    assert DropLeading(s, IsSpace) == s;
    assert DropTrailing(s, IsSpace) == s;
  }

  lemma TrimFixed(s: string)
    requires s == [] || (IsLowerAlnum(s[0]) && IsLowerAlnum(s[|s| - 1]))
    ensures TrimNonAlnum(s) == s
  {
    assert DropLeading(s, IsNotLowerAlnum) == s;
    assert DropTrailing(s, IsNotLowerAlnum) == s;
  }

  /** Normalising twice gives what normalising once gives. */
  lemma NormalizeIdempotent(text: string)
    ensures NormalizeAnswer(NormalizeAnswer(text)) == NormalizeAnswer(text)
  {
    NormalizeIsCanonical(text);
    CanonicalIsFixed(NormalizeAnswer(text));
  }

  /** The fixed points of normalisation are exactly the canonical strings. */
  lemma FixedIffCanonical(s: string)
    ensures NormalizeAnswer(s) == s <==> IsCanonical(s)
  {
    NormalizeIsCanonical(s);
    if IsCanonical(s) {
      CanonicalIsFixed(s);
    }
  }
}
