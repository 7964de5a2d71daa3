/**
 Applying a list of hunks whose places are known, on sequences of lines alone.

 Each step has the text so far as the lines already patched, the gap before the next hunk, its old lines, and the
 rest.  A hunk with old lines fits at its place exactly when they match; one without old lines always fits, one line
 above its place, because the reader takes its start line for that of a line to be replaced.

 The induction over the steps is what the exact law of PatchLaw rests on.
 */
module PatchSites {
  import opened Text
  import opened UnifiedDiff
  import opened Patch

  // ----- Hunks as sites -----

  /**
   A hunk of a diff: the kept lines since the hunk before it, its two sides, and the two sides as the reader
   sees them, which may have lost carriage returns.
   */
  datatype Site = Site(gap: seq<string>, old': seq<string>, new': seq<string>, readOld: seq<string>, readNew: seq<string>) {
    predicate Valid() {
      |readOld| == |old'| && |readNew| == |new'|
    }
  }

  predicate AllValid(sites: seq<Site>) {
    forall k :: 0 <= k < |sites| ==> sites[k].Valid()
  }

  function SitesOld(sites: seq<Site>, tail: seq<string>): seq<string> {
    if |sites| == 0 then tail else sites[0].gap + (sites[0].old' + SitesOld(sites[1..], tail))
  }

  function SitesNew(sites: seq<Site>, tail: seq<string>): seq<string> {
    if |sites| == 0 then tail else sites[0].gap + (sites[0].new' + SitesNew(sites[1..], tail))
  }

  /** The hunks as they are read back, when none is cut short. */
  function SitesHunks(sites: seq<Site>, oldBefore: nat): seq<PatchHunk> {
    if |sites| == 0 then []
    else
      var site := sites[0];
      [HunkAt(site, oldBefore)] + SitesHunks(sites[1..], oldBefore + |site.gap| + |site.old'|)
  }

  /** The reader sees this hunk as it is, and the applier puts it where it belongs. */
  predicate SiteGood(site: Site) {
    if |site.old'| > 0 then site.readOld == site.old' && site.readNew == site.new'
    else |site.gap| > 0 && var x := site.gap[|site.gap| - 1]; site.readNew + [x] == [x] + site.new'
  }

  predicate Fits(site: Site) {
    if |site.old'| > 0 then site.readOld == site.old' else |site.gap| > 0
  }

  /** What a fitting hunk makes of its gap and its old lines. */
  function Advance(site: Site): seq<string>
    requires Fits(site)
  {
    if |site.old'| > 0 then site.gap + site.readNew
    else site.gap[..|site.gap| - 1] + site.readNew + [site.gap[|site.gap| - 1]]
  }

  /** Lines of the right number fit at the place of o exactly when they are o. */
  lemma {:induction false} ReplaceStep(f: seq<string>, g: seq<string>, o: seq<string>, n: seq<string>, r: seq<string>, o': seq<string>)
    requires |o'| == |o|
    ensures var lines := f + g + (o + r);
            && (Matches(lines, o', |f| + |g|) <==> o' == o)
            && |f| + |g| + |o| <= |lines|
            && Splice(lines, |f| + |g|, |o|, n) == f + g + n + r
  {
    var lines := f + g + (o + r);
    assert lines[|f| + |g|..|f| + |g| + |o|] == o;
    assert lines[..|f| + |g|] == f + g;
    assert lines[|f| + |g| + |o|..] == r;
  }

  /** A hunk without old lines always fits, one line above its place. */
  lemma {:induction false} InsertStep(f: seq<string>, g: seq<string>, n: seq<string>, r: seq<string>)
    requires |g| > 0
    ensures var lines := f + g + r;
            && Matches(lines, [], |f| + |g| - 1)
            && Splice(lines, |f| + |g| - 1, 0, n) == f + (g[..|g| - 1] + n + [g[|g| - 1]]) + r
  {
    var lines := f + g + r;
    assert lines[|f| + |g| - 1..|f| + |g| - 1] == [];
    assert lines[..|f| + |g| - 1] == f + g[..|g| - 1];
    assert lines[|f| + |g| - 1..] == [g[|g| - 1]] + r;
  }

  lemma {:induction false} SamePrefix(a: seq<string>, b: seq<string>, c: seq<string>, d: seq<string>)
    requires |a| == |b|
    ensures a + c == b + d <==> a == b && c == d
  {
    if a + c == b + d {
      assert a == (a + c)[..|a|] && b == (b + d)[..|a|];
      assert c == (a + c)[|a|..] && d == (b + d)[|a|..];
    }
  }

  /** What matches within the ints is found without a search. */
  lemma {:induction false} FoundAtOnce(lines: seq<string>, expectedLines: seq<string>, expected: int, fuzz: nat)
    requires |lines| <= MAX_INT && MIN_INT <= expected && expected + |expectedLines| <= MAX_INT
    ensures Matches(lines, expectedLines, expected) ==> SearchInts(lines, expectedLines, expected, fuzz) == Found(expected)
    ensures !Matches(lines, expectedLines, expected) ==> SearchInts(lines, expectedLines, expected, 0) == NotFound
  {
    hide ProbeAt;
    ProbeTellsMatches(lines, expectedLines, expected);
    assert SearchIntsFrom(lines, expectedLines, expected, 0, 1) == NotFound;
  }

  lemma {:induction false} AdvanceIsRight(site: Site)
    requires Fits(site) && site.Valid()
    ensures |Advance(site)| == |site.gap| + |site.new'|
    ensures Advance(site) == site.gap + site.new' <==> SiteGood(site)
  {
    var g, n, n' := site.gap, site.new', site.readNew;
    if |site.old'| > 0 {
      SamePrefix(g, g, n', n);
    } else {
      var g', x := g[..|g| - 1], g[|g| - 1];
      Regroup3(g', n', [x]);
      Regroup3(g', [x], n);
      assert g' + [x] == g;
      SamePrefix(g', g', n' + [x], [x] + n);
    }
  }

  /** Where the applier finds the hunk. */
  lemma {:induction false} LocateSite(site: Site, f: seq<string>, rest: seq<string>, fuzz: nat)
    requires site.Valid() && (|site.old'| == 0 && |site.gap| == 0 ==> |f| == 0)
    requires |f| + |site.gap| + |site.old'| + |rest| <= MAX_INT
    ensures var lines := f + site.gap + (site.old' + rest);
            var expected := StartLine(|f| + |site.gap|, |site.old'|) - 1;
            && Wrap(expected) == expected
            && (Fits(site) ==> expected >= 0 && SearchInts(lines, site.readOld, expected, fuzz) == Found(expected))
            && (!Fits(site) && fuzz == 0 ==> SearchInts(lines, site.readOld, expected, fuzz) == NotFound)
  {
    hide SearchInts;
    var lines := f + site.gap + (site.old' + rest);
    FoundAtOnce(lines, site.readOld, StartLine(|f| + |site.gap|, |site.old'|) - 1, fuzz);
    if |site.old'| > 0 {
      ReplaceStep(f, site.gap, site.old', [], rest, site.readOld);
    } else if |site.gap| > 0 {
      InsertStep(f, site.gap, [], rest);
      EmptyConcat(site.old', rest);
    }
  }

  /** What the applier does there. */
  lemma {:induction false} SpliceSite(site: Site, f: seq<string>, rest: seq<string>)
    requires Fits(site)
    ensures var lines := f + site.gap + (site.old' + rest);
            var expected := StartLine(|f| + |site.gap|, |site.old'|) - 1;
            && 0 <= expected <= expected + |site.old'| <= |lines|
            && Splice(lines, expected, |site.old'|, site.readNew) == f + Advance(site) + rest
  {
    if |site.old'| > 0 {
      ReplaceStep(f, site.gap, site.old', site.readNew, rest, site.old');
      Regroup3(f, site.gap, site.readNew);
    } else {
      InsertStep(f, site.gap, site.readNew, rest);
      EmptyConcat(site.old', rest);
    }
  }

  // ----- Applying all hunks -----

  predicate AllGood(sites: seq<Site>) {
    forall k :: 0 <= k < |sites| ==> SiteGood(sites[k])
  }

  /** Only the first hunk can lack a gap, unless it has old lines. */
  predicate Gapped(sites: seq<Site>) {
    forall k :: 1 <= k < |sites| ==> |sites[k].gap| > 0
  }

  lemma {:induction false} ApplyStep(lines: seq<string>, hunk: PatchHunk, hunks: seq<PatchHunk>, fuzz: nat, index: nat, delta: int)
    ensures var search := SearchInts(lines, hunk.oldLines, Wrap(hunk.oldStart - 1 + delta), fuzz);
            var result := ApplyFrom(lines, [hunk] + hunks, fuzz, index, delta);
            if !search.Found? then result.Err?
            else
              && search.position + |hunk.oldLines| <= |lines|
              && result == ApplyFrom(Splice(lines, search.position, |hunk.oldLines|, hunk.newLines), hunks, fuzz, index + 1,
                                     delta + |hunk.newLines| - |hunk.oldLines|)
  {
    FoundMatches(lines, hunk.oldLines, Wrap(hunk.oldStart - 1 + delta), fuzz, 0);
    assert ([hunk] + hunks)[1..] == hunks;
  }

  function HunkAt(site: Site, oldBefore: nat): PatchHunk {
    PatchHunk(StartLine(oldBefore + |site.gap|, |site.old'|), site.readOld, site.readNew)
  }

  /** The applier's result before it comes to a site, and after it, on a text that begins with f. */
  function ApplyAt(site: Site, rest: seq<string>, hunks: seq<PatchHunk>, f: seq<string>, oldBefore: nat, fuzz: nat, index: nat)
    : Result<seq<string>, PatchError>
  {
    ApplyFrom(f + site.gap + (site.old' + rest), [HunkAt(site, oldBefore)] + hunks, fuzz, index, |f| - oldBefore)
  }

  function ApplyPast(site: Site, rest: seq<string>, hunks: seq<PatchHunk>, f: seq<string>, oldBefore: nat, fuzz: nat, index: nat)
    : Result<seq<string>, PatchError>
    requires Fits(site)
  {
    ApplyFrom(f + Advance(site) + rest, hunks, fuzz, index + 1, |f| - oldBefore + |site.new'| - |site.old'|)
  }

  /** One turn of the applier's loop over a text that begins with f. */
  lemma {:induction false} ApplyFitting(site: Site, rest: seq<string>, hunks: seq<PatchHunk>, f: seq<string>, oldBefore: nat, fuzz: nat, index: nat)
    requires site.Valid() && Fits(site) && |f| + |site.gap| + |site.old'| + |rest| <= MAX_INT
    ensures ApplyAt(site, rest, hunks, f, oldBefore, fuzz, index) == ApplyPast(site, rest, hunks, f, oldBefore, fuzz, index)
  {
    LocateSite(site, f, rest, fuzz);
    ApplyStep(f + site.gap + (site.old' + rest), HunkAt(site, oldBefore), hunks, fuzz, index, |f| - oldBefore);
    SpliceSite(site, f, rest);
  }

  lemma {:induction false} ApplyMisfit(site: Site, rest: seq<string>, hunks: seq<PatchHunk>, f: seq<string>, oldBefore: nat, index: nat)
    requires site.Valid() && !Fits(site) && (|site.old'| == 0 && |site.gap| == 0 ==> |f| == 0)
    requires |f| + |site.gap| + |site.old'| + |rest| <= MAX_INT
    ensures ApplyAt(site, rest, hunks, f, oldBefore, 0, index).Err?
  {
    LocateSite(site, f, rest, 0);
    ApplyStep(f + site.gap + (site.old' + rest), HunkAt(site, oldBefore), hunks, 0, index, |f| - oldBefore);
  }

  /** The induction step of SitesExact, in terms of what follows the first site. */
  lemma {:induction false} SiteExact(site: Site, f: seq<string>, b: seq<string>, rest: seq<string>, result: Result<seq<string>, PatchError>, good: bool, fuzz: nat)
    requires |f| == |b| && site.Valid()
    requires if Fits(site) then
               var f', b' := f + Advance(site), b + (site.gap + site.new');
               && (f' == b' && good ==> result == Ok(b' + rest))
               && (fuzz == 0 && result == Ok(b' + rest) ==> f' == b' && good)
             else fuzz == 0 ==> result.Err?
    ensures f == b && SiteGood(site) && good ==> result == Ok(b + (site.gap + (site.new' + rest)))
    ensures fuzz == 0 && result == Ok(b + (site.gap + (site.new' + rest))) ==> f == b && SiteGood(site) && good
  {
    if Fits(site) {
      AdvanceIsRight(site);
      SamePrefix(f, b, Advance(site), site.gap + site.new');
      Regroup3(site.gap, site.new', rest);
      Regroup3(b, site.gap + site.new', rest);
    }
  }

  /** The applier's result on a text that begins with f and goes on with the old lines of the sites. */
  function SitesResult(sites: seq<Site>, tail: seq<string>, f: seq<string>, oldBefore: nat, fuzz: nat, index: nat)
    : Result<seq<string>, PatchError>
  {
    ApplyFrom(f + SitesOld(sites, tail), SitesHunks(sites, oldBefore), fuzz, index, |f| - oldBefore)
  }

  lemma {:induction false} SitesUnfold(sites: seq<Site>, tail: seq<string>, f: seq<string>, oldBefore: nat, fuzz: nat, index: nat)
    requires |sites| > 0
    ensures var site, rest := sites[0], SitesOld(sites[1..], tail);
            var hunks := SitesHunks(sites[1..], oldBefore + |site.gap| + |site.old'|);
            && SitesResult(sites, tail, f, oldBefore, fuzz, index) == ApplyAt(site, rest, hunks, f, oldBefore, fuzz, index)
            && (Fits(site) && site.Valid() ==>
                  SitesResult(sites[1..], tail, f + Advance(site), oldBefore + |site.gap| + |site.old'|, fuzz, index + 1)
                  == ApplyPast(site, rest, hunks, f, oldBefore, fuzz, index))
  {
    hide ApplyFrom, Fits, Advance;
    var site := sites[0];
    Regroup3(f, site.gap, site.old' + SitesOld(sites[1..], tail));
    if Fits(site) && site.Valid() {
      AdvanceIsRight(site);
    }
  }

  lemma {:induction false} FirstLength(sites: seq<Site>, tail: seq<string>, f: seq<string>)
    requires |sites| > 0
    ensures var site, rest := sites[0], SitesOld(sites[1..], tail);
            |f| + |site.gap| + |site.old'| + |rest| == |f| + |SitesOld(sites, tail)|
    ensures |SitesOld(sites, tail)| == |sites[0].gap| + |sites[0].old'| + |SitesOld(sites[1..], tail)|
    ensures |SitesNew(sites, tail)| == |sites[0].gap| + |sites[0].new'| + |SitesNew(sites[1..], tail)|
  {
  }

  lemma {:induction false} FirstFits(sites: seq<Site>, tail: seq<string>, f: seq<string>, oldBefore: nat, fuzz: nat, index: nat)
    requires |sites| > 0 && sites[0].Valid() && Fits(sites[0]) && |f| + |SitesOld(sites, tail)| <= MAX_INT
    ensures var site := sites[0];
            SitesResult(sites, tail, f, oldBefore, fuzz, index)
              == SitesResult(sites[1..], tail, f + Advance(site), oldBefore + |site.gap| + |site.old'|, fuzz, index + 1)
  {
    hide *;
    var site, rest := sites[0], SitesOld(sites[1..], tail);
    var hunks := SitesHunks(sites[1..], oldBefore + |site.gap| + |site.old'|);
    SitesUnfold(sites, tail, f, oldBefore, fuzz, index);
    FirstLength(sites, tail, f);
    ApplyFitting(site, rest, hunks, f, oldBefore, fuzz, index);
  }

  lemma {:induction false} FirstMisfits(sites: seq<Site>, tail: seq<string>, f: seq<string>, oldBefore: nat, index: nat)
    requires |sites| > 0 && sites[0].Valid() && !Fits(sites[0]) && |f| + |SitesOld(sites, tail)| <= MAX_INT
    requires |sites[0].old'| == 0 && |sites[0].gap| == 0 ==> |f| == 0
    ensures SitesResult(sites, tail, f, oldBefore, 0, index).Err?
  {
    var site, rest := sites[0], SitesOld(sites[1..], tail);
    hide Fits, ApplyAt, SitesResult, SitesOld, SitesNew, SitesHunks;
    SitesUnfold(sites, tail, f, oldBefore, 0, index);
    FirstLength(sites, tail, f);
    ApplyMisfit(site, rest, SitesHunks(sites[1..], oldBefore + |site.gap| + |site.old'|), f, oldBefore, index);
  }

  ghost predicate ExactFrom(sites: seq<Site>, tail: seq<string>, f: seq<string>, b: seq<string>, oldBefore: nat, fuzz: nat, index: nat) {
    var result := SitesResult(sites, tail, f, oldBefore, fuzz, index);
    && (f == b && AllGood(sites) ==> result == Ok(b + SitesNew(sites, tail)))
    && (fuzz == 0 && result == Ok(b + SitesNew(sites, tail)) ==> f == b && AllGood(sites))
  }

  lemma {:induction false} ExactStep(sites: seq<Site>, tail: seq<string>, f: seq<string>, b: seq<string>, oldBefore: nat, fuzz: nat, index: nat)
    requires |sites| > 0 && |f| == |b| && Gapped(sites) && AllValid(sites) && |f| + |SitesOld(sites, tail)| <= MAX_INT
    requires |sites[0].old'| == 0 && |sites[0].gap| == 0 ==> |f| == 0
    requires Fits(sites[0]) ==>
               ExactFrom(sites[1..], tail, f + Advance(sites[0]), b + (sites[0].gap + sites[0].new'),
                         oldBefore + |sites[0].gap| + |sites[0].old'|, fuzz, index + 1)
    ensures ExactFrom(sites, tail, f, b, oldBefore, fuzz, index)
  {
    if Fits(sites[0]) {
      FirstFits(sites, tail, f, oldBefore, fuzz, index);
    } else if fuzz == 0 {
      FirstMisfits(sites, tail, f, oldBefore, index);
    }
    NextSites(sites);
    SiteExact(sites[0], f, b, SitesNew(sites[1..], tail), SitesResult(sites, tail, f, oldBefore, fuzz, index),
              AllGood(sites[1..]), fuzz);
  }

  /**
   Applying the hunks of a diff, from any point on: the result is right if what came before is and every hunk
   is good; and, with no fuzz, only if.
   */
  lemma {:induction false} SitesExact(sites: seq<Site>, tail: seq<string>, f: seq<string>, b: seq<string>, oldBefore: nat,
                                      fuzz: nat, index: nat)
    requires |f| == |b| && Gapped(sites) && AllValid(sites)
    requires |f| + |SitesOld(sites, tail)| + |SitesNew(sites, tail)| <= MAX_INT
    requires |sites| > 0 && |sites[0].old'| == 0 && |sites[0].gap| == 0 ==> |f| == 0
    ensures ExactFrom(sites, tail, f, b, oldBefore, fuzz, index)
    decreases |sites|
  {
    if |sites| == 0 {
      SamePrefix(f, b, tail, tail);
    } else {
      hide Fits, Advance, ApplyFrom, SitesOld, SitesNew, SitesHunks, ExactFrom;
      var site := sites[0];
      FirstLength(sites, tail, f);
      if Fits(site) {
        AdvanceIsRight(site);
        NextSites(sites);
        SitesExact(sites[1..], tail, f + Advance(site), b + (site.gap + site.new'),
                   oldBefore + |site.gap| + |site.old'|, fuzz, index + 1);
      }
      ExactStep(sites, tail, f, b, oldBefore, fuzz, index);
    }
  }

  lemma {:induction false} NextSites(sites: seq<Site>)
    requires |sites| > 0 && Gapped(sites) && AllValid(sites)
    ensures AllGood(sites) <==> SiteGood(sites[0]) && AllGood(sites[1..])
    ensures AllValid(sites[1..]) && Gapped(sites[1..]) && (|sites| > 1 ==> |sites[1..][0].gap| > 0)
  {
    assert forall k :: 1 <= k < |sites| ==> sites[k] == sites[1..][k - 1];
    assert forall k :: 0 <= k < |sites[1..]| ==> sites[1..][k] == sites[k + 1];
  }

  /** Moving a block over the line above it changes nothing exactly when the block repeats that line. */
  lemma {:induction false} RotationIsIdentity(n: seq<string>, x: string)
    ensures StripCrs(n) + [x] == [x] + n <==> forall i :: 0 <= i < |n| ==> n[i] == x && !EndsInCr(n[i])
  {
    var m := |n|;
    StripCrsElements(n);
    if StripCrs(n) + [x] == [x] + n {
      if m > 0 {
        assert (StripCrs(n) + [x])[0] == ([x] + n)[0];
        forall i | 0 < i < m ensures StripCr(n[i]) == n[i - 1] {
          assert (StripCrs(n) + [x])[i] == ([x] + n)[i];
        }
        assert (StripCrs(n) + [x])[m] == ([x] + n)[m];
        LengthsGrow(n, x, m - 1);
      }
    }
    if forall i :: 0 <= i < m ==> n[i] == x && !EndsInCr(n[i]) {
      assert forall i :: 0 <= i < m ==> StripCrs(n)[i] == x;
      assert StripCrs(n) + [x] == [x] + n;
    }
  }

  /** When each line, stripped, is the line before it and the last is the first, no line was stripped. */
  lemma {:induction false} LengthsGrow(n: seq<string>, x: string, k: nat)
    requires k < |n|
    requires StripCr(n[0]) == x && forall i :: 0 < i < |n| ==> StripCr(n[i]) == n[i - 1]
    ensures |x| <= |n[k]|
    ensures |n[k]| <= |x| ==> forall i :: 0 <= i <= k ==> n[i] == x && !EndsInCr(n[i])
  {
    if k > 0 {
      LengthsGrow(n, x, k - 1);
    }
  }

  predicate AllGapped(sites: seq<Site>) {
    forall k :: 0 <= k < |sites| ==> |sites[k].gap| > 0
  }

  lemma {:induction false} ConsSites(site: Site, rest: seq<Site>)
    ensures AllValid([site] + rest) <==> site.Valid() && AllValid(rest)
    ensures AllGood([site] + rest) <==> SiteGood(site) && AllGood(rest)
    ensures AllGapped([site] + rest) <==> |site.gap| > 0 && AllGapped(rest)
    ensures Gapped([site] + rest) <==> AllGapped(rest)
  {
    var sites := [site] + rest;
    assert sites[0] == site && sites[1..] == rest;
    assert forall k :: 1 <= k < |sites| ==> sites[k] == rest[k - 1];
    assert forall k :: 0 <= k < |rest| ==> rest[k] == sites[k + 1];
  }
}
