/** UTF-8 as section 3 of RFC 3629 defines it, and cutting a text between characters. */
module Utf8 {
  import opened Bytes

  predicate IsContinuation(b: byte) {
    0x80 <= b as int <= 0xBF
  }

  /** The length of the well-formed character at the start of s, or 0. */
  function CharLength(s: bytes): (n: nat)
    ensures n <= 4 && n <= |s|
    ensures n > 0 ==> !IsContinuation(s[0])
    ensures forall i :: 0 < i < n ==> IsContinuation(s[i])
  {
    if s == [] then 0
    else
      var a := s[0] as int;
      if a < 0x80 then 1
      else if |s| < 2 || !IsContinuation(s[1]) then 0
      else
        var b := s[1] as int;
        if 0xC2 <= a <= 0xDF then 2
        else if |s| < 3 || !IsContinuation(s[2]) then 0
        else if (a == 0xE0 && b >= 0xA0) || 0xE1 <= a <= 0xEC || (a == 0xED && b <= 0x9F) || 0xEE <= a <= 0xEF then 3
        else if |s| < 4 || !IsContinuation(s[3]) then 0
        else if (a == 0xF0 && b >= 0x90) || 0xF1 <= a <= 0xF3 || (a == 0xF4 && b <= 0x8F) then 4
        else 0
  }

  predicate Valid(s: bytes) {
    s == [] || (CharLength(s) > 0 && Valid(s[CharLength(s)..]))
  }

  /** The first character does not depend on what follows it. */
  lemma CharLengthOfPrefix(s: bytes, k: nat)
    requires CharLength(s) > 0 && CharLength(s) <= k <= |s|
    ensures CharLength(s[..k]) == CharLength(s)
  {
  }

  /** A valid text cut before any byte that is not a continuation stays valid. */
  lemma {:induction false} CutIsValid(s: bytes, k: nat)
    requires Valid(s) && k <= |s| && (k < |s| ==> !IsContinuation(s[k]))
    ensures Valid(s[..k])
    decreases |s|
  {
    if k > 0 {
      var n := CharLength(s);
      CharLengthOfPrefix(s, k);
      CutIsValid(s[n..], k - n);
      assert s[..k][n..] == s[n..][..k - n];
    }
  }

  lemma ValidHead(s: bytes)
    requires Valid(s) && s != []
    ensures CharLength(s) > 0 && Valid(s[CharLength(s)..])
  {
  }

  lemma ValidStep(s: bytes, n: nat)
    requires CharLength(s) == n > 0 && Valid(s[n..])
    ensures Valid(s)
  {
  }

  lemma {:induction false} ConcatIsValid(a: bytes, b: bytes)
    requires Valid(a) && Valid(b)
    ensures Valid(a + b)
    decreases |a|
  {
    hide CharLength, Valid;
    if a == [] {
      assert a + b == b;
    } else {
      ValidHead(a);
      var n := CharLength(a);
      ConcatIsValid(a[n..], b);
      assert (a + b)[n..] == a[n..] + b;
      CharLengthExtends(a, b);
      ValidStep(a + b, n);
    }
  }

  lemma CharLengthExtends(a: bytes, b: bytes)
    requires CharLength(a) > 0
    ensures CharLength(a + b) == CharLength(a)
  {
  }
}
