/** The ASCII string operations that the router's naming code is built from.
    Case mapping is the ASCII one: hosts and service names are ASCII here. */
module Ascii {

  function LowerChar(c: char): char {
    if 'A' <= c <= 'Z' then ((c as int) + 32) as char else c
  }

  function Lower(s: string): (r: string)
    ensures |r| == |s|
    ensures forall i :: 0 <= i < |s| ==> r[i] == LowerChar(s[i])
  {
    seq(|s|, i requires 0 <= i < |s| => LowerChar(s[i]))
  }

  predicate EqualFold(a: string, b: string) {
    Lower(a) == Lower(b)
  }

  predicate EndsWithDot(s: string) {
    |s| > 0 && s[|s| - 1] == '.'
  }

  predicate DotFree(s: string) {
    forall i :: 0 <= i < |s| ==> s[i] != '.'
  }

  predicate HasSuffix(s: string, suffix: string) {
    |suffix| <= |s| && s[|s| - |suffix|..] == suffix
  }

  /** Removes one trailing dot, if there is one. */
  function TrimDot(s: string): string {
    if EndsWithDot(s) then s[..|s| - 1] else s
  }

  predicate IsSpace(c: char) {
    c == ' ' || c == '\t' || c == '\n' || c == '\r' || c as int == 11 || c as int == 12
  }

  function TrimSpace(s: string): (r: string)
    ensures r != "" ==> !IsSpace(r[0]) && !IsSpace(r[|r| - 1])
    decreases |s|
  {
    if |s| > 0 && IsSpace(s[0]) then TrimSpace(s[1..])
    else if |s| > 0 && IsSpace(s[|s| - 1]) then TrimSpace(s[..|s| - 1])
    else s
  }

  predicate Blank(s: string) {
    forall i :: 0 <= i < |s| ==> IsSpace(s[i])
  }

  /** Trimming takes off white space only, and only at the ends. */
  lemma TrimSpaceSplits(s: string) returns (before: string, after: string)
    ensures s == before + TrimSpace(s) + after
    ensures Blank(before) && Blank(after)
  {
    var i, j := TrimSpaceSlice(s);
    before, after := s[..i], s[j..];
  }

  lemma {:induction false} TrimSpaceSlice(s: string) returns (i: nat, j: nat)
    ensures i <= j <= |s| && TrimSpace(s) == s[i..j]
    ensures forall k :: 0 <= k < i || j <= k < |s| ==> IsSpace(s[k])
    decreases |s|
  {
    if |s| > 0 && IsSpace(s[0]) {
      i, j := TrimSpaceSlice(s[1..]);
      assert s[1..][i..j] == s[i + 1..j + 1];
      assert forall k :: 1 <= k < |s| ==> s[k] == s[1..][k - 1];
      i, j := i + 1, j + 1;
    } else if |s| > 0 && IsSpace(s[|s| - 1]) {
      i, j := TrimSpaceSlice(s[..|s| - 1]);
      assert s[..|s| - 1][i..j] == s[i..j];
    } else {
      i, j := 0, |s|;
    }
  }

  /** A core without white space at its ends is what trimming leaves of it. */
  lemma {:induction false} TrimSpaceOfPadded(before: string, core: string, after: string)
    requires Blank(before) && Blank(after)
    requires core != "" && !IsSpace(core[0]) && !IsSpace(core[|core| - 1])
    ensures TrimSpace(before + core + after) == core
    decreases |before| + |after|
  {
    var s := before + core + after;
    if before != "" {
      assert s[1..] == before[1..] + core + after;
      TrimSpaceOfPadded(before[1..], core, after);
    } else if after != "" {
      assert s[0] == core[0];
      assert s[..|s| - 1] == before + core + after[..|after| - 1];
      TrimSpaceOfPadded(before, core, after[..|after| - 1]);
    } else {
      assert s == core;
    }
  }

  /** No white space at either end. */
  predicate Trimmed(s: string) {
    s == "" || (!IsSpace(s[0]) && !IsSpace(s[|s| - 1]))
  }

  lemma {:induction false} TrimSpaceOfBlank(s: string)
    requires Blank(s)
    ensures TrimSpace(s) == ""
    decreases |s|
  {
    if s != "" { TrimSpaceOfBlank(s[1..]); }
  }

  /** Trimming gives exactly the part that has white space around it and none at
      its own ends. */
  lemma TrimSpaceExact(s: string, core: string)
    ensures TrimSpace(s) == core
       <==> Trimmed(core) && exists before, after :: Blank(before) && Blank(after) && s == before + core + after
  {
    if TrimSpace(s) == core {
      var before, after := TrimSpaceSplits(s);
      assert s == before + core + after;
    }
    if Trimmed(core) {
      forall before, after | Blank(before) && Blank(after) && s == before + core + after ensures TrimSpace(s) == core {
        if core == "" {
          TrimSpaceOfBlank(s);
        } else {
          TrimSpaceOfPadded(before, core, after);
        }
      }
    }
  }

  /** The index of the first occurrence of c, or -1. */
  function IndexOf(s: string, c: char): (i: int)
    ensures -1 <= i < |s|
    ensures i >= 0 ==> s[i] == c && forall k :: 0 <= k < i ==> s[k] != c
    ensures i < 0 ==> forall k :: 0 <= k < |s| ==> s[k] != c
  {
    if |s| == 0 then -1
    else if s[0] == c then 0
    else
      var j := IndexOf(s[1..], c);
      assert forall k :: 1 <= k < |s| ==> s[k] == s[1..][k - 1];
      if j < 0 then -1 else j + 1
  }

  /** The index of the last occurrence of c, or -1. */
  function LastIndexOf(s: string, c: char): (i: int)
    ensures -1 <= i < |s|
    ensures i >= 0 ==> s[i] == c && forall k :: i < k < |s| ==> s[k] != c
    ensures i < 0 ==> forall k :: 0 <= k < |s| ==> s[k] != c
  {
    if |s| == 0 then -1
    else if s[|s| - 1] == c then |s| - 1
    else LastIndexOf(s[..|s| - 1], c)
  }

  lemma TrimDotExact(s: string)
    ensures if |s| > 0 && s[|s| - 1] == '.' then s == TrimDot(s) + "." else TrimDot(s) == s
  {}

  const UPPER_CASE := "ABCDEFGHIJKLMNOPQRSTUVWXYZ"
  const LOWER_CASE := "abcdefghijklmnopqrstuvwxyz"

  /** Folding a letter gives the one at the same place in the lower-case alphabet
      and leaves every other character alone; no upper-case letter is left. */
  lemma LowerCharExact(c: char)
    ensures forall k :: 0 <= k < 26 && c == UPPER_CASE[k] ==> LowerChar(c) == LOWER_CASE[k]
    ensures c !in UPPER_CASE ==> LowerChar(c) == c
    ensures LowerChar(c) !in UPPER_CASE
  {
    UpperCaseIsRange(c);
    UpperCaseIsRange(LowerChar(c));
  }

  lemma UpperCaseIsRange(c: char)
    ensures c in UPPER_CASE <==> 'A' <= c <= 'Z'
    ensures forall k :: 0 <= k < 26 ==> UPPER_CASE[k] as int == 'A' as int + k && LOWER_CASE[k] as int == 'a' as int + k
  {
    AlphabetInOrder();
    if 'A' <= c <= 'Z' { assert UPPER_CASE[c as int - 'A' as int] == c; }
  }

  lemma AlphabetInOrder()
    ensures forall k :: 0 <= k < 26 ==> UPPER_CASE[k] as int == 'A' as int + k
    ensures forall k :: 0 <= k < 26 ==> LOWER_CASE[k] as int == 'a' as int + k
  {}

  /** White space is the six ASCII characters that trimming takes off. */
  lemma IsSpaceExact(c: char)
    ensures IsSpace(c) <==> c as int in {9, 10, 11, 12, 13, 32}
  {}

  lemma LowerIdempotent(s: string)
    ensures Lower(Lower(s)) == Lower(s)
  {}

  lemma LowerOfPart(s: string, i: nat, j: nat)
    requires Lower(s) == s && i <= j <= |s|
    ensures Lower(s[i..j]) == s[i..j]
  {}

  /** Folding case moves no dot. */
  lemma LowerKeepsDots(s: string)
    ensures EndsWithDot(Lower(s)) == EndsWithDot(s)
    ensures DotFree(Lower(s)) == DotFree(s)
    ensures Lower(TrimDot(s)) == TrimDot(Lower(s))
  {}
}
