/**
 What trimming leaves, and what white space is.

 A trimmed text is what is left between a front and an end that are cut, and nothing more can be cut from it.
 */
module TextLaws {
  import opened Text

  // ----- Trimming -----

  ghost predicate AllCut(s: string, cut: char -> bool) {
    forall i :: 0 <= i < |s| ==> cut(s[i])
  }

  lemma {:induction false} TrimLeftOf(p: string, x: string, cut: char -> bool)
    requires AllCut(p, cut) && (x == "" || !cut(x[0]))
    ensures TrimLeft(p + x, cut) == x
  {
    if p == "" {
      assert p + x == x;
    } else {
      assert (p + x)[1..] == p[1..] + x;
      TrimLeftOf(p[1..], x, cut);
    }
  }

  lemma {:induction false} TrimRightOf(x: string, q: string, cut: char -> bool)
    requires AllCut(q, cut) && (x == "" || !cut(x[|x| - 1]))
    ensures TrimRight(x + q, cut) == x
    decreases |q|
  {
    if q == "" {
      assert x + q == x;
    } else {
      assert (x + q)[..|x + q| - 1] == x + q[..|q| - 1];
      TrimRightOf(x, q[..|q| - 1], cut);
    }
  }

  lemma {:induction false} TrimOf(p: string, x: string, q: string, cut: char -> bool)
    requires AllCut(p, cut) && AllCut(q, cut) && (x == "" || (!cut(x[0]) && !cut(x[|x| - 1])))
    ensures Trim(p + x + q, cut) == x
  {
    if x == "" {
      assert AllCut(p + x + q, cut) && (p + x + q) + "" == p + x + q;
      TrimLeftOf(p + x + q, "", cut);
    } else {
      Regroup3(p, x, q);
      TrimLeftOf(p, x + q, cut);
      TrimRightOf(x, q, cut);
    }
  }

  lemma {:induction false} TrimmedLeft(s: string, cut: char -> bool) returns (p: string)
    ensures s == p + TrimLeft(s, cut) && AllCut(p, cut)
  {
    if |s| > 0 && cut(s[0]) {
      var rest := TrimmedLeft(s[1..], cut);
      p := [s[0]] + rest;
      Regroup3([s[0]], rest, TrimLeft(s[1..], cut));
    } else {
      p := "";
    }
  }

  lemma {:induction false} TrimmedRight(s: string, cut: char -> bool) returns (q: string)
    ensures s == TrimRight(s, cut) + q && AllCut(q, cut)
    decreases |s|
  {
    if |s| > 0 && cut(s[|s| - 1]) {
      var rest := TrimmedRight(s[..|s| - 1], cut);
      q := rest + [s[|s| - 1]];
      Regroup3(TrimRight(s[..|s| - 1], cut), rest, [s[|s| - 1]]);
    } else {
      q := "";
    }
  }

  lemma {:induction false} Trimmed(s: string, cut: char -> bool) returns (p: string, q: string)
    ensures s == p + Trim(s, cut) + q && AllCut(p, cut) && AllCut(q, cut)
  {
    p := TrimmedLeft(s, cut);
    q := TrimmedRight(TrimLeft(s, cut), cut);
    Regroup3(p, Trim(s, cut), q);
  }

  // ----- White space -----

  /** The white space of Unicode. */
  predicate IsWhite(c: char) {
    c in {'\U{09}', '\U{0A}', '\U{0B}', '\U{0C}', '\U{0D}', '\U{20}', '\U{85}', '\U{A0}', '\U{1680}',
          '\U{2000}', '\U{2001}', '\U{2002}', '\U{2003}', '\U{2004}', '\U{2005}', '\U{2006}', '\U{2007}',
          '\U{2008}', '\U{2009}', '\U{200A}', '\U{2028}', '\U{2029}', '\U{202F}', '\U{205F}', '\U{3000}'}
  }

  lemma {:induction false} WhiteSpace(s: string)
    ensures forall i :: 0 <= i < |s| ==> (IsSpace(s[i]) <==> IsWhite(s[i]))
    ensures AllCut(s, IsSpace) <==> AllCut(s, IsWhite)
  {
    forall i | 0 <= i < |s| ensures IsSpace(s[i]) <==> IsWhite(s[i]) {
    }
  }
}
