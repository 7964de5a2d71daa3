/**
 UTF-8 as bytes: well-formed sequences, and cuts that do not split one.

 Every character stands for one byte.  A sequence is well formed as in section 4 of RFC 3629: no overlong forms, no
 surrogates, nothing above U+10FFFF.

 A cut looks only for a byte that does not continue a sequence.  That such a byte starts one is a property of valid
 text, which is what CutAtBoundary uses; the text of a line, and lines joined again, are valid with it.
 */
module Utf8 {
  import opened Text

  predicate IsContinuation(c: char) {
    '\U{80}' <= c <= '\U{BF}'
  }

  /** `utf8.RuneStart`. */
  predicate RuneStart(c: char) {
    !IsContinuation(c)
  }

  /** The length of the well-formed sequence (section 4 of RFC 3629) at the front of s; zero if there is none. */
  function RuneLength(s: string): (n: nat)
    ensures n <= |s|
  {
    if |s| == 0 then 0
    else
      var c := s[0];
      if c <= '\U{7F}' then 1
      else if |s| > 1 && '\U{C2}' <= c <= '\U{DF}' && IsContinuation(s[1]) then 2
      else if |s| > 2 && '\U{E0}' <= c <= '\U{EF}' && SecondOf3(c, s[1]) && IsContinuation(s[2]) then 3
      else if |s| > 3 && '\U{F0}' <= c <= '\U{F4}' && SecondOf4(c, s[1]) && IsContinuation(s[2]) && IsContinuation(s[3]) then 4
      else 0
  }

  predicate SecondOf3(c: char, d: char) {
    (if c == '\U{E0}' then '\U{A0}' else '\U{80}') <= d <= if c == '\U{ED}' then '\U{9F}' else '\U{BF}'
  }

  predicate SecondOf4(c: char, d: char) {
    (if c == '\U{F0}' then '\U{90}' else '\U{80}') <= d <= if c == '\U{F4}' then '\U{8F}' else '\U{BF}'
  }

  /** `utf8.ValidString`. */
  predicate Valid(s: string)
    decreases |s|
  {
    |s| == 0 || (RuneLength(s) > 0 && Valid(s[RuneLength(s)..]))
  }

  lemma {:induction false} RuneIsWhole(s: string)
    requires RuneLength(s) > 0
    ensures RuneStart(s[0]) && forall i :: 0 < i < RuneLength(s) ==> IsContinuation(s[i])
  {
  }

  lemma {:induction false} RuneInPrefix(s: string, k: nat)
    requires 0 < RuneLength(s) <= k <= |s|
    ensures RuneLength(s[..k]) == RuneLength(s)
  {
  }

  lemma {:induction false} RuneInFront(a: string, b: string)
    requires RuneLength(a) > 0
    ensures RuneLength(a + b) == RuneLength(a)
  {
  }

  /** The position splits no sequence. */
  predicate Boundary(s: string, k: nat) {
    k == 0 || k == |s| || (k < |s| && RuneStart(s[k]))
  }

  /** Cutting valid text at a boundary leaves valid text on both sides. */
  lemma {:induction false} CutAtBoundary(s: string, k: nat)
    requires Valid(s) && k <= |s| && Boundary(s, k)
    ensures Valid(s[..k]) && Valid(s[k..])
    decreases |s|
  {
    hide RuneLength;
    if k == 0 {
      assert s[0..] == s;
    } else {
      var n := RuneLength(s);
      RuneIsWhole(s);
      assert n <= k;
      CutAtBoundary(s[n..], k - n);
      RuneInPrefix(s, k);
      assert s[..k][n..] == s[n..][..k - n] && s[n..][k - n..] == s[k..];
    }
  }

  lemma {:induction false} ValidConcat(a: string, b: string)
    requires Valid(a) && Valid(b)
    ensures Valid(a + b)
    decreases |a|
  {
    hide RuneLength;
    if |a| == 0 {
      EmptyConcat(a, b);
    } else {
      var n := RuneLength(a);
      RuneInFront(a, b);
      assert (a + b)[n..] == a[n..] + b;
      ValidConcat(a[n..], b);
    }
  }

  lemma {:induction false} AsciiIsValid(s: string)
    requires forall i :: 0 <= i < |s| ==> s[i] <= '\U{7F}'
    ensures Valid(s)
  {
    if |s| > 0 {
      AsciiIsValid(s[1..]);
    }
  }

  // ----- Cuts -----

  /** The last boundary at or before cut. */
  function HeadCut(s: string, cut: nat): (k: nat)
    requires cut < |s|
    ensures k <= cut && Boundary(s, k) && forall i :: k < i <= cut ==> IsContinuation(s[i])
    decreases cut
  {
    if cut == 0 || RuneStart(s[cut]) then cut else HeadCut(s, cut - 1)
  }

  /** The first boundary at or after start. */
  function TailCut(s: string, start: nat): (k: nat)
    requires start <= |s|
    ensures start <= k <= |s| && Boundary(s, k) && forall i :: start <= i < k ==> IsContinuation(s[i])
    decreases |s| - start
  {
    if start == |s| || RuneStart(s[start]) then start else TailCut(s, start + 1)
  }

  function SafeHead(s: string, maxBytes: int): string {
    if maxBytes <= 0 then "" else if |s| <= maxBytes then s else s[..HeadCut(s, maxBytes)]
  }

  function SafeTail(s: string, maxBytes: int): string {
    if maxBytes <= 0 then "" else if |s| <= maxBytes then s else s[TailCut(s, |s| - maxBytes)..]
  }

  method RuneSafeHead(text: string, maxBytes: int) returns (head: string)
    ensures head == SafeHead(text, maxBytes)
  {
    if maxBytes <= 0 {
      return "";
    }
    if |text| <= maxBytes {
      return text;
    }
    var cut := maxBytes;
    while cut > 0 && !RuneStart(text[cut])
      invariant 0 <= cut <= maxBytes && HeadCut(text, cut) == HeadCut(text, maxBytes)
    {
      cut := cut - 1;
    }
    return text[..cut];
  }

  method RuneSafeTail(text: string, maxBytes: int) returns (tail: string)
    ensures tail == SafeTail(text, maxBytes)
  {
    if maxBytes <= 0 {
      return "";
    }
    if |text| <= maxBytes {
      return text;
    }
    var start := |text| - maxBytes;
    while start < |text| && !RuneStart(text[start])
      invariant 0 <= start <= |text| && TailCut(text, start) == TailCut(text, |text| - maxBytes)
    {
      start := start + 1;
    }
    return text[start..];
  }

  /** Cuts keep to their limit, take from the right end, and split no sequence of valid text. */
  lemma {:induction false} HeadIsSafe(s: string, maxBytes: int)
    ensures |SafeHead(s, maxBytes)| <= Max(maxBytes, 0) && SafeHead(s, maxBytes) <= s
    ensures Valid(s) ==> Valid(SafeHead(s, maxBytes))
  {
    hide Valid;
    AsciiIsValid("");
    if 0 < maxBytes < |s| && Valid(s) {
      CutAtBoundary(s, HeadCut(s, maxBytes));
    }
  }

  lemma {:induction false} TailIsSafe(s: string, maxBytes: int)
    ensures |SafeTail(s, maxBytes)| <= Max(maxBytes, 0) && |SafeTail(s, maxBytes)| <= |s|
    ensures SafeTail(s, maxBytes) == s[|s| - |SafeTail(s, maxBytes)|..]
    ensures Valid(s) ==> Valid(SafeTail(s, maxBytes))
  {
    hide Valid;
    AsciiIsValid("");
    if 0 < maxBytes < |s| && Valid(s) {
      CutAtBoundary(s, TailCut(s, |s| - maxBytes));
    }
  }

  /** The head ends at the last boundary that its limit reaches. */
  lemma {:induction false} HeadEndsAtBoundary(s: string, maxBytes: nat, k: nat)
    ensures |SafeHead(s, maxBytes)| <= Min(maxBytes, |s|) && Boundary(s, |SafeHead(s, maxBytes)|)
    ensures k <= Min(maxBytes, |s|) && Boundary(s, k) ==> k <= |SafeHead(s, maxBytes)|
  {
  }

  /** The tail starts at the first boundary that its limit reaches. */
  lemma {:induction false} TailStartsAtBoundary(s: string, maxBytes: nat, k: nat)
    ensures var start := |s| - |SafeTail(s, maxBytes)|; Max(0, |s| - maxBytes) <= start <= |s| && Boundary(s, start)
    ensures |s| - maxBytes <= k <= |s| && Boundary(s, k) ==> |s| - |SafeTail(s, maxBytes)| <= k
  {
  }

  // ----- Lines -----

  lemma {:induction false} LineOfValid(line: string, rest: string)
    requires Valid(line + "\n" + rest)
    ensures Valid(line) && Valid(rest)
  {
    var s := line + "\n" + rest;
    assert s[|line|] == '\n';
    CutAtBoundary(s, |line|);
    assert s[..|line|] == line && s[|line|..] == "\n" + rest;
    CutAtBoundary(s, |line|);
    assert ("\n" + rest)[1..] == rest && RuneLength("\n" + rest) == 1;
  }

  predicate AllValid(lines: seq<string>) {
    forall i :: 0 <= i < |lines| ==> Valid(lines[i])
  }

  lemma {:induction false} LinesOfValid(lines: seq<string>)
    requires Valid(Join(lines))
    ensures AllValid(lines)
  {
    if |lines| > 1 {
      LineOfValid(lines[0], Join(lines[1..]));
      LinesOfValid(lines[1..]);
      assert forall i :: 1 <= i < |lines| ==> lines[i] == lines[1..][i - 1];
    }
  }

  lemma {:induction false} JoinOfValid(lines: seq<string>)
    requires AllValid(lines)
    ensures Valid(Join(lines))
  {
    if |lines| > 1 {
      assert AllValid(lines[1..]) by {
        assert forall i :: 0 <= i < |lines[1..]| ==> lines[1..][i] == lines[i + 1];
      }
      JoinOfValid(lines[1..]);
      AsciiIsValid("\n");
      ValidConcat(lines[0], "\n");
      ValidConcat(lines[0] + "\n", Join(lines[1..]));
    }
  }

  // ----- White space -----

  /** The length of the white space character at the front of s, as unicode.IsSpace has it; zero if there is none. */
  function SpaceLength(s: string): (n: nat)
    ensures n <= |s|
  {
    if |s| >= 1 && ('\t' <= s[0] <= '\r' || s[0] == ' ') then 1
    else if |s| >= 2 && s[0] == '\U{C2}' && (s[1] == '\U{85}' || s[1] == '\U{A0}') then 2
    else if |s| >= 3 && IsSpace3(s[0], s[1], s[2]) then 3
    else 0
  }

  predicate IsSpace3(a: char, b: char, c: char) {
    || (a == '\U{E1}' && b == '\U{9A}' && c == '\U{80}')
    || (a == '\U{E2}' && b == '\U{80}' && ('\U{80}' <= c <= '\U{8A}' || c == '\U{A8}' || c == '\U{A9}' || c == '\U{AF}'))
    || (a == '\U{E2}' && b == '\U{81}' && c == '\U{9F}')
    || (a == '\U{E3}' && b == '\U{80}' && c == '\U{80}')
  }

  function LastSpaceLength(s: string): (n: nat)
    ensures n <= |s|
  {
    if |s| >= 1 && SpaceLength(s[|s| - 1..]) == 1 then 1
    else if |s| >= 2 && SpaceLength(s[|s| - 2..]) == 2 then 2
    else if |s| >= 3 && SpaceLength(s[|s| - 3..]) == 3 then 3
    else 0
  }

  function TrimSpaceLeft(s: string): string
    decreases |s|
  {
    if SpaceLength(s) > 0 then TrimSpaceLeft(s[SpaceLength(s)..]) else s
  }

  function TrimSpaceRight(s: string): string
    decreases |s|
  {
    if LastSpaceLength(s) > 0 then TrimSpaceRight(s[..|s| - LastSpaceLength(s)]) else s
  }

  /** `strings.TrimSpace`. */
  function TrimSpace(s: string): string {
    TrimSpaceRight(TrimSpaceLeft(s))
  }

  lemma {:induction false} LeftIsTrimmed(s: string)
    ensures SpaceLength(TrimSpaceLeft(s)) == 0 && (LfFree(s) ==> LfFree(TrimSpaceLeft(s)))
    decreases |s|
  {
    var n := SpaceLength(s);
    if n > 0 {
      LeftIsTrimmed(s[n..]);
      assert forall c :: c in s[n..] ==> c in s;
    }
  }

  lemma {:induction false} RightIsTrimmed(s: string)
    ensures LastSpaceLength(TrimSpaceRight(s)) == 0 && TrimSpaceRight(s) <= s
    decreases |s|
  {
    if LastSpaceLength(s) > 0 {
      RightIsTrimmed(s[..|s| - LastSpaceLength(s)]);
    }
  }

  /** What was trimmed has no white space left at either end. */
  lemma {:induction false} TrimmedStaysTrimmed(s: string)
    ensures TrimSpace(TrimSpace(s)) == TrimSpace(s)
  {
    var left := TrimSpaceLeft(s);
    var t := TrimSpaceRight(left);
    LeftIsTrimmed(s);
    RightIsTrimmed(left);
    assert SpaceLength(t) > 0 ==> SpaceLength(left) == SpaceLength(t);
  }

  lemma {:induction false} TrimKeepsLfFree(s: string)
    requires LfFree(s)
    ensures LfFree(TrimSpace(s))
  {
    hide TrimSpaceLeft, TrimSpaceRight;
    LeftIsTrimmed(s);
    RightIsTrimmed(TrimSpaceLeft(s));
    assert forall c :: c in TrimSpace(s) ==> c in TrimSpaceLeft(s);
  }
}
