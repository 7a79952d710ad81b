/** Character classes, skipping characters and reversing. Bytes are characters below 256. */
module Ctype {

  const NUL := '\U{00}'

  predicate IsDigit(c: char) { '0' <= c <= '9' }

  predicate IsAlpha(c: char) { 'A' <= c <= 'Z' || 'a' <= c <= 'z' }

  predicate IsAlnum(c: char) { IsAlpha(c) || IsDigit(c) }

  predicate IsXdigit(c: char) { IsDigit(c) || 'A' <= c <= 'F' || 'a' <= c <= 'f' }

  predicate IsCntrl(c: char) { c as int <= 0x1f || c as int == 0x7f }

  predicate IsSpace(c: char) { c == '\t' || 0x0a <= c as int <= 0x0d || c == ' ' }

  predicate IsPrint(c: char) { 0x20 <= c as int <= 0x7e }

  predicate IsByte(c: char) { c as int < 256 }

  predicate IsBytes(s: string) { forall i :: 0 <= i < |s| ==> IsByte(s[i]) }

  /** The first position from i on whose character does not satisfy f. */
  function SkipWhile(b: string, i: nat, f: char -> bool): (r: nat)
    requires i <= |b|
    ensures i <= r <= |b|
    ensures r < |b| ==> !f(b[r])
    decreases |b| - i
  {
    if i < |b| && f(b[i]) then SkipWhile(b, i + 1, f) else i
  }

  /** remove_leading(), on a view of b that begins at i. */
  method RemoveLeading(b: string, i: nat, f: char -> bool) returns (r: nat)
    requires i <= |b|
    ensures r == SkipWhile(b, i, f)
  {
    r := i;
    while r < |b| && f(b[r])
      invariant i <= r <= |b| && SkipWhile(b, r, f) == SkipWhile(b, i, f)
    {
      r := r + 1;
    }
  }

  lemma SkipWhileAll(b: string, i: nat, f: char -> bool)
    requires i <= |b|
    ensures forall k :: i <= k < SkipWhile(b, i, f) ==> f(b[k])
    decreases |b| - i
  {
    if i < |b| && f(b[i]) {
      SkipWhileAll(b, i + 1, f);
    }
  }

  /** A position with the defining properties is the one that is found. */
  lemma SkipWhileIs(b: string, i: nat, r: nat, f: char -> bool)
    requires i <= r <= |b| && (r < |b| ==> !f(b[r])) && forall k :: i <= k < r ==> f(b[k])
    ensures SkipWhile(b, i, f) == r
    decreases r - i
  {
  }

  function Reversed(s: string): (r: string)
    ensures |r| == |s|
  {
    seq(|s|, i requires 0 <= i < |s| => s[|s| - 1 - i])
  }
}
