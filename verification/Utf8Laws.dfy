/** Valid bytes and trimmed bytes in terms of the characters they encode. */
module Utf8Laws {
  import opened Text
  import opened TextLaws
  import opened Utf8

  // ----- Encodings -----

  /** A code point that is no surrogate. */
  predicate IsScalarValue(n: nat) {
    n < 0xD800 || 0xE000 <= n < 0x110000
  }

  function Byte(n: nat): char
    requires n < 256
  {
    n as char
  }

  /** The table in section 3 of RFC 3629. */
  function Encoded(n: nat): (s: string)
    requires IsScalarValue(n)
    ensures |s| > 0
  {
    if n < 0x80 then [Byte(n)]
    else if n < 0x800 then [Byte(0xC0 + n / 0x40), Byte(0x80 + n % 0x40)]
    else if n < 0x10000 then [Byte(0xE0 + n / 0x1000), Byte(0x80 + n / 0x40 % 0x40), Byte(0x80 + n % 0x40)]
    else [Byte(0xF0 + n / 0x40000), Byte(0x80 + n / 0x1000 % 0x40), Byte(0x80 + n / 0x40 % 0x40), Byte(0x80 + n % 0x40)]
  }

  function EncodedAll(ns: seq<nat>): string
    requires forall n :: n in ns ==> IsScalarValue(n)
  {
    if |ns| == 0 then "" else Encoded(ns[0]) + EncodedAll(ns[1..])
  }

  lemma {:induction false} EncodingIsRune(n: nat, s: string)
    requires IsScalarValue(n) && Encoded(n) <= s
    ensures RuneLength(s) == |Encoded(n)|
  {
    var e := Encoded(n);
    assert forall i :: 0 <= i < |e| ==> s[i] == e[i];
  }

  /** Digits to the base of 64. */
  lemma {:induction false} DigitsOf(a: nat, b: nat, c: nat, d: nat)
    requires b < 0x40 && c < 0x40 && d < 0x40
    ensures var n := a * 0x40000 + b * 0x1000 + c * 0x40 + d;
            n % 0x40 == d && n / 0x40 % 0x40 == c && n / 0x1000 % 0x40 == b && n / 0x40000 == a && n / 0x1000 == a * 0x40 + b
            && n / 0x40 == a * 0x1000 + b * 0x40 + c
  {
    var n := a * 0x40000 + b * 0x1000 + c * 0x40 + d;
    assert n / 0x40 == a * 0x1000 + b * 0x40 + c;
    assert n / 0x1000 == a * 0x40 + b;
  }

  lemma {:induction false} RuneIsEncoding(s: string) returns (n: nat)
    requires RuneLength(s) > 0
    ensures IsScalarValue(n) && Encoded(n) == s[..RuneLength(s)]
  {
    var k := RuneLength(s);
    if k == 1 {
      n := s[0] as int;
    } else if k == 2 {
      var a, b := s[0] as int - 0xC0, s[1] as int - 0x80;
      n := a * 0x40 + b;
      DigitsOf(0, 0, a, b);
    } else if k == 3 {
      n := ScalarOf3(s);
    } else {
      n := ScalarOf4(s);
    }
  }

  lemma {:induction false} ScalarOf3(s: string) returns (n: nat)
    requires RuneLength(s) == 3
    ensures IsScalarValue(n) && Encoded(n) == s[..3]
  {
    var a, b, c := s[0] as int - 0xE0, s[1] as int - 0x80, s[2] as int - 0x80;
    n := a * 0x1000 + b * 0x40 + c;
    DigitsOf(0, a, b, c);
    assert 0x800 <= n < 0x10000 && IsScalarValue(n);
    hide RuneLength;
  }

  lemma {:induction false} ScalarOf4(s: string) returns (n: nat)
    requires RuneLength(s) == 4
    ensures IsScalarValue(n) && Encoded(n) == s[..4]
  {
    var a, b, c, d := s[0] as int - 0xF0, s[1] as int - 0x80, s[2] as int - 0x80, s[3] as int - 0x80;
    n := a * 0x40000 + b * 0x1000 + c * 0x40 + d;
    DigitsOf(a, b, c, d);
    assert 0x10000 <= n < 0x110000;
    hide RuneLength;
  }

  /** Valid are exactly the encodings of sequences of Unicode scalar values. */
  lemma {:induction false} ValidIsEncoding(s: string)
    ensures Valid(s) <==> exists ns: seq<nat> :: (forall n :: n in ns ==> IsScalarValue(n)) && EncodedAll(ns) == s
  {
    if Valid(s) {
      var ns := ScalarsOf(s);
    }
    if ns: seq<nat> :| (forall n :: n in ns ==> IsScalarValue(n)) && EncodedAll(ns) == s {
      EncodingIsValid(ns);
    }
  }

  lemma {:induction false} EncodingIsValid(ns: seq<nat>)
    requires forall n :: n in ns ==> IsScalarValue(n)
    ensures Valid(EncodedAll(ns))
  {
    if |ns| > 0 {
      EncodingIsValid(ns[1..]);
      var s, e := EncodedAll(ns), Encoded(ns[0]);
      hide RuneLength, Encoded;
      EncodingIsRune(ns[0], s);
      assert s[|e|..] == EncodedAll(ns[1..]);
    }
  }

  lemma {:induction false} ScalarsOf(s: string) returns (ns: seq<nat>)
    requires Valid(s)
    ensures (forall n :: n in ns ==> IsScalarValue(n)) && EncodedAll(ns) == s
    decreases |s|
  {
    hide RuneLength, Encoded;
    ns := [];
    if |s| > 0 {
      var k := RuneLength(s);
      var n := RuneIsEncoding(s);
      var rest := ScalarsOf(s[k..]);
      ns := [n] + rest;
      assert ns[1..] == rest && s == s[..k] + s[k..];
    }
  }

  // ----- White space -----

  /** A white space character of Unicode, encoded. */
  ghost predicate IsSpaceText(s: string) {
    exists c: char :: IsWhite(c) && IsScalarValue(c as int) && s == Encoded(c as int)
  }

  lemma {:induction false} SpaceAtFront(s: string)
    ensures SpaceLength(s) > 0 ==> IsSpaceText(s[..SpaceLength(s)])
    ensures forall k: nat :: k <= |s| && IsSpaceText(s[..k]) ==> k == SpaceLength(s)
  {
    if SpaceLength(s) > 0 {
      var c: char := WhiteAt(s);
    }
    forall k: nat | k <= |s| && IsSpaceText(s[..k]) ensures k == SpaceLength(s) {
      var c: char :| IsWhite(c) && IsScalarValue(c as int) && s[..k] == Encoded(c as int);
      WhiteIsSpace(c, s);
    }
  }

  lemma {:induction false} WhiteAt(s: string) returns (c: char)
    requires SpaceLength(s) > 0
    ensures IsWhite(c) && IsScalarValue(c as int) && Encoded(c as int) == s[..SpaceLength(s)]
  {
    match SpaceLength(s)
    case 1 =>
      c := s[0];
    case 2 =>
      c := s[1];
    case _ =>
      c := ((s[0] as int - 0xE0) * 0x1000 + (s[1] as int - 0x80) * 0x40 + (s[2] as int - 0x80)) as char;
  }

  lemma {:induction false} WhiteIsSpace(c: char, s: string)
    requires IsWhite(c) && IsScalarValue(c as int) && Encoded(c as int) <= s
    ensures SpaceLength(s) == |Encoded(c as int)|
  {
    var e := Encoded(c as int);
    assert forall i :: 0 <= i < |e| ==> s[i] == e[i];
  }

  /** Encoded white space, one character after the other. */
  ghost predicate AllSpaces(s: string)
    decreases |s|
  {
    s == "" || exists k :: 0 < k <= |s| && IsSpaceText(s[..k]) && AllSpaces(s[k..])
  }

  /** Trimming takes white space off both ends, and all of it. */
  lemma {:induction false} TrimsAllSpace(s: string) returns (p: string, q: string)
    ensures s == p + TrimSpace(s) + q && AllSpaces(p) && AllSpaces(q)
    ensures forall k :: 0 <= k <= |TrimSpace(s)| ==> !IsSpaceText(TrimSpace(s)[..k]) && !IsSpaceText(TrimSpace(s)[k..])
  {
    hide IsSpaceText, TrimSpaceLeft, TrimSpaceRight;
    var left := TrimSpaceLeft(s);
    p := LeftIsSpace(s);
    q := RightIsSpace(left);
    Regroup3(p, TrimSpace(s), q);
    var t := TrimSpaceRight(left);
    LeftIsTrimmed(s);
    RightIsTrimmed(left);
    FrontOfFront(left, t);
    SpaceAtFront(t);
    SpaceAtEnd(t);
    EmptyIsNoSpace();
    forall k | 0 <= k <= |t| ensures !IsSpaceText(t[..k]) && !IsSpaceText(t[k..]) {
      if k == 0 {
        assert t[..k] == "";
      }
    }
  }

  lemma {:induction false} EmptyIsNoSpace()
    ensures !IsSpaceText("")
  {
  }

  lemma {:induction false} FrontOfFront(s: string, t: string)
    requires t <= s && SpaceLength(s) == 0
    ensures SpaceLength(t) == 0
  {
  }

  lemma {:induction false} SpaceAtEnd(s: string)
    ensures LastSpaceLength(s) > 0 ==> IsSpaceText(s[|s| - LastSpaceLength(s)..])
    ensures LastSpaceLength(s) == 0 ==> forall k :: 0 <= k <= |s| ==> !IsSpaceText(s[k..])
  {
    hide IsSpaceText, SpaceLength;
    forall k | 0 <= k <= |s| ensures var n := SpaceLength(s[k..]);
                                     (n > 0 ==> IsSpaceText(s[k..][..n])) && (IsSpaceText(s[k..]) ==> n == |s| - k) {
      SpaceAtFront(s[k..]);
      assert s[k..][..|s| - k] == s[k..];
    }
    var n := LastSpaceLength(s);
    if n > 0 {
      assert s[|s| - n..][..n] == s[|s| - n..];
    }
    forall k | 0 <= k <= |s| && IsSpaceText(s[k..]) ensures LastSpaceLength(s) > 0 {
      LengthOfSpace(s[k..]);
    }
  }

  lemma {:induction false} LengthOfSpace(s: string)
    requires IsSpaceText(s)
    ensures 1 <= |s| <= 3
  {
  }

  lemma {:induction false} LeftIsSpace(s: string) returns (p: string)
    ensures s == p + TrimSpaceLeft(s) && AllSpaces(p)
    decreases |s|
  {
    hide IsSpaceText, SpaceLength;
    var n := SpaceLength(s);
    p := "";
    if n > 0 {
      SpaceAtFront(s);
      var rest := LeftIsSpace(s[n..]);
      p := s[..n] + rest;
      assert p[..n] == s[..n] && p[n..] == rest;
    }
  }

  lemma {:induction false} RightIsSpace(s: string) returns (q: string)
    ensures s == TrimSpaceRight(s) + q && AllSpaces(q)
    decreases |s|
  {
    hide IsSpaceText, LastSpaceLength;
    var n := LastSpaceLength(s);
    q := "";
    if n > 0 {
      SpaceAtEnd(s);
      var front, space := s[..|s| - n], s[|s| - n..];
      var rest := RightIsSpace(front);
      q := rest + space;
      SpaceBehind(rest, space);
      assert s == front + space;
    }
  }

  lemma {:induction false} SpaceBehind(s: string, space: string)
    requires AllSpaces(s) && IsSpaceText(space)
    ensures AllSpaces(s + space)
    decreases |s|
  {
    hide IsSpaceText;
    if s == "" {
      EmptyConcat(s, space);
      assert space[..|space|] == space && space[|space|..] == "";
      LengthOfSpace(space);
    } else {
      var k :| 0 < k <= |s| && IsSpaceText(s[..k]) && AllSpaces(s[k..]);
      SpaceBehind(s[k..], space);
      assert (s + space)[..k] == s[..k] && (s + space)[k..] == s[k..] + space;
    }
  }
}
