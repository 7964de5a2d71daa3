/**
 Diff, then patch, continued: applying the hunks that were read back.

 A diff is cut at its hunks into sites, each with the kept lines before it.  The hunks that a reader finds in the
 printed diff are those of the sites, unless one was cut short by a line that looks like a file header; then the
 result has too few lines.  Applied in order, the sites turn the old lines into the new ones if every one of them
 is good, and without fuzz only if.
 */
module PatchExact {
  import opened Text
  import opened LineDiff
  import opened UnifiedDiff
  import opened Patch
  import opened PatchRoundTrip
  import opened PatchSites

  // ----- Runs of kept lines between hunks -----

  predicate AllKept(ops: seq<DiffLine>, start: nat, end: nat)
    requires start <= end <= |ops|
  {
    forall i :: start <= i < end ==> ops[i].kind == Keep
  }

  lemma {:induction false} KeptProjects(part: seq<DiffLine>)
    requires forall i :: 0 <= i < |part| ==> part[i].kind == Keep
    ensures OldLines(part) == NewLines(part) && |OldLines(part)| == |part|
    ensures forall i :: 0 <= i < |part| ==> OldLines(part)[i] == part[i].text
  {
    if |part| > 0 {
      KeptProjects(part[1..]);
      forall i | 0 <= i < |part| ensures OldLines(part)[i] == part[i].text {
        if i > 0 { assert OldLines(part)[i] == OldLines(part[1..])[i - 1] && part[1..][i - 1] == part[i]; }
      }
    }
  }

  /** Where the hunks before hunks[k] end. */
  function EndBefore(hunks: seq<Interval>, k: nat): nat
    requires k <= |hunks|
  {
    if k == 0 then 0 else hunks[k - 1].end
  }

  ghost predicate CoversChanges(ops: seq<DiffLine>, hunks: seq<Interval>) {
    forall i :: IsChange(ops, i) ==> Covered(hunks, i)
  }

  lemma {:induction false} GapIsKept(ops: seq<DiffLine>, hunks: seq<Interval>, k: nat)
    requires k <= |hunks| && Separated(ops, hunks) && CoversChanges(ops, hunks)
    ensures var e := EndBefore(hunks, k);
            var s := if k == |hunks| then |ops| else hunks[k].start;
            e <= s && AllKept(ops, e, s) && (0 < k < |hunks| ==> e < s)
  {
    var e := EndBefore(hunks, k);
    var s := if k == |hunks| then |ops| else hunks[k].start;
    assert forall l :: 0 <= l < k ==> hunks[l].end <= e;
    assert forall l :: k <= l < |hunks| ==> s <= hunks[l].start;
    forall i | e <= i < s ensures ops[i].kind == Keep {
      assert !Covered(hunks, i);
      assert !IsChange(ops, i);
    }
  }

  /** Hunks in order from operation e on, with kept operations before, between and after them. */
  predicate Chained(ops: seq<DiffLine>, e: nat, hunks: seq<Interval>)
    decreases |hunks|
  {
    && e <= |ops|
    && if |hunks| == 0 then AllKept(ops, e, |ops|)
       else
         && e <= hunks[0].start < hunks[0].end <= |ops|
         && AllKept(ops, e, hunks[0].start)
         && (e > 0 ==> e < hunks[0].start)
         && Chained(ops, hunks[0].end, hunks[1..])
  }

  lemma {:induction false} HunksAreChained(ops: seq<DiffLine>, hunks: seq<Interval>, k: nat)
    requires k <= |hunks| && Separated(ops, hunks) && CoversChanges(ops, hunks)
    ensures Chained(ops, EndBefore(hunks, k), hunks[k..])
    decreases |hunks| - k
  {
    GapIsKept(ops, hunks, k);
    if k < |hunks| {
      HunksAreChained(ops, hunks, k + 1);
      assert hunks[k..][0] == hunks[k] && hunks[k..][1..] == hunks[k + 1..];
    }
  }

  predicate AllReadable(ops: seq<DiffLine>, hunks: seq<Interval>)
    requires AllInRange(ops, hunks)
  {
    forall k :: 0 <= k < |hunks| ==> Readable(Part(ops, hunks[k]))
  }

  predicate AllFaithful(ops: seq<DiffLine>, hunks: seq<Interval>)
    requires AllInRange(ops, hunks)
  {
    forall k :: 0 <= k < |hunks| ==> Faithful(ops, hunks[k])
  }

  /** What holds of all hunks holds of the first and of the others. */
  lemma {:induction false} AllOrFirst(ops: seq<DiffLine>, hunks: seq<Interval>)
    requires AllInRange(ops, hunks) && |hunks| > 0
    ensures AllInRange(ops, hunks[1..])
    ensures AllReadable(ops, hunks) <==> Readable(Part(ops, hunks[0])) && AllReadable(ops, hunks[1..])
    ensures AllFaithful(ops, hunks) <==> Faithful(ops, hunks[0]) && AllFaithful(ops, hunks[1..])
  {
    var rest := hunks[1..];
    assert forall k :: 1 <= k < |hunks| ==> hunks[k] == rest[k - 1];
    assert forall k :: 0 <= k < |rest| ==> rest[k] == hunks[k + 1];
  }

  // ----- Projections of a hunk -----

  lemma {:induction false} CrFreeProjects(part: seq<DiffLine>)
    ensures CrFree(part) <==> StripCrs(OldLines(part)) == OldLines(part) && StripCrs(NewLines(part)) == NewLines(part)
  {
    if |part| > 0 {
      var rest := part[1..];
      CrFreeProjects(rest);
      assert CrFree(part) <==> !EndsInCr(part[0].text) && CrFree(rest) by {
        assert forall i :: 1 <= i < |part| ==> part[i] == rest[i - 1];
        assert forall i :: 0 <= i < |rest| ==> rest[i] == part[i + 1];
      }
      StripHead(OldPart(part[0]), OldLines(rest));
      StripHead(NewPart(part[0]), NewLines(rest));
    }
  }

  lemma {:induction false} StripHead(head: seq<string>, rest: seq<string>)
    requires |head| <= 1
    ensures StripCrs(head + rest) == head + rest <==>
            (|head| == 1 ==> !EndsInCr(head[0])) && StripCrs(rest) == rest
  {
    StripCrsAdd(head, rest);
    if StripCrs(head + rest) == head + rest {
      assert StripCrs(rest) == (head + rest)[|head|..] == rest;
      if |head| == 1 { assert (head + rest)[0] == head[0]; }
    }
  }

  lemma {:induction false} InsertionProjects(part: seq<DiffLine>)
    requires |OldLines(part)| == 0
    ensures |NewLines(part)| == |part|
    ensures forall i :: 0 <= i < |part| ==> NewLines(part)[i] == part[i].text
  {
    if |part| > 0 {
      InsertionProjects(part[1..]);
      forall i | 0 <= i < |part| ensures NewLines(part)[i] == part[i].text {
        if i > 0 { assert NewLines(part)[i] == NewLines(part[1..])[i - 1]; }
      }
    }
  }

  lemma {:induction false} ReadableIsRead(part: seq<DiffLine>)
    requires Readable(part)
    ensures ReadPart(part) == part
  {
    if |part| > 0 {
      ReadableIsRead(part[1..]);
    }
  }


  // ----- The sites of a diff -----

  lemma {:induction false} SplitFront(ops: seq<DiffLine>, i: nat, j: nat)
    requires i <= j <= |ops|
    ensures OldLines(ops[..j]) == OldLines(ops[..i]) + OldLines(ops[i..j])
    ensures NewLines(ops[..j]) == NewLines(ops[..i]) + NewLines(ops[i..j])
  {
    var front := ops[..j];
    assert front[..i] == ops[..i] && front[i..] == ops[i..j];
    SplitProjections(front, i);
  }

  lemma {:induction false} SplitBack(ops: seq<DiffLine>, i: nat, j: nat)
    requires i <= j <= |ops|
    ensures OldLines(ops[i..]) == OldLines(ops[i..j]) + OldLines(ops[j..])
    ensures NewLines(ops[i..]) == NewLines(ops[i..j]) + NewLines(ops[j..])
  {
    var back := ops[i..];
    assert back[..j - i] == ops[i..j] && back[j - i..] == ops[j..];
    SplitProjections(back, j - i);
  }

  lemma {:induction false} SplitAt(ops: seq<DiffLine>, i: nat, j: nat)
    requires i <= j <= |ops|
    ensures OldLines(ops[..j]) == OldLines(ops[..i]) + OldLines(ops[i..j])
    ensures NewLines(ops[..j]) == NewLines(ops[..i]) + NewLines(ops[i..j])
    ensures OldLines(ops[i..]) == OldLines(ops[i..j]) + OldLines(ops[j..])
    ensures NewLines(ops[i..]) == NewLines(ops[i..j]) + NewLines(ops[j..])
  {
    SplitFront(ops, i, j);
    SplitBack(ops, i, j);
  }

  function SiteOf(ops: seq<DiffLine>, e: nat, hunk: Interval): Site
    requires InRange(ops, hunk) && e <= hunk.start
  {
    var old', new' := OldLines(Part(ops, hunk)), NewLines(Part(ops, hunk));
    Site(OldLines(ops[e..hunk.start]), old', new', StripCrs(old'), StripCrs(new'))
  }

  function SitesOf(ops: seq<DiffLine>, e: nat, hunks: seq<Interval>): seq<Site>
    requires Chained(ops, e, hunks)
    decreases |hunks|
  {
    if |hunks| == 0 then [] else [SiteOf(ops, e, hunks[0])] + SitesOf(ops, hunks[0].end, hunks[1..])
  }

  /** The kept lines after the last hunk. */
  function TailOf(ops: seq<DiffLine>, e: nat, hunks: seq<Interval>): seq<string>
    requires Chained(ops, e, hunks)
    decreases |hunks|
  {
    if |hunks| == 0 then NewLines(ops[e..]) else TailOf(ops, hunks[0].end, hunks[1..])
  }

  lemma {:induction false} SiteSplits(ops: seq<DiffLine>, e: nat, hunk: Interval)
    requires InRange(ops, hunk) && e <= hunk.start && AllKept(ops, e, hunk.start)
    ensures var site := SiteOf(ops, e, hunk);
            && OldLines(ops[e..]) == site.gap + (site.old' + OldLines(ops[hunk.end..]))
            && NewLines(ops[e..]) == site.gap + (site.new' + NewLines(ops[hunk.end..]))
  {
    KeptProjects(ops[e..hunk.start]);
    SplitBack(ops, e, hunk.start);
    SplitBack(ops, hunk.start, hunk.end);
  }

  lemma {:induction false} SitesStep(site: Site, next: seq<Site>, tail: seq<string>)
    ensures SitesOld([site] + next, tail) == site.gap + (site.old' + SitesOld(next, tail))
    ensures SitesNew([site] + next, tail) == site.gap + (site.new' + SitesNew(next, tail))
  {
    TailOfConcat([site], next);
    EmptyConcat([site][1..], next);
  }

  lemma {:induction false} SitesHunksStep(site: Site, next: seq<Site>, hunk: PatchHunk, hunks: seq<PatchHunk>, oldBefore: nat)
    requires hunk == HunkAt(site, oldBefore) && hunks == SitesHunks(next, oldBefore + |site.gap| + |site.old'|)
    ensures SitesHunks([site] + next, oldBefore) == [hunk] + hunks
  {
    TailOfConcat([site], next);
    EmptyConcat([site][1..], next);
  }

  /** The sites of a diff stand for its two projections. */
  lemma {:induction false} SitesProject(ops: seq<DiffLine>, e: nat, hunks: seq<Interval>)
    requires Chained(ops, e, hunks)
    ensures SitesOld(SitesOf(ops, e, hunks), TailOf(ops, e, hunks)) == OldLines(ops[e..])
    ensures SitesNew(SitesOf(ops, e, hunks), TailOf(ops, e, hunks)) == NewLines(ops[e..])
    decreases |hunks|
  {
    if |hunks| == 0 {
      KeptProjects(ops[e..]);
    } else {
      SitesProject(ops, hunks[0].end, hunks[1..]);
      SiteSplits(ops, e, hunks[0]);
      SitesStep(SiteOf(ops, e, hunks[0]), SitesOf(ops, hunks[0].end, hunks[1..]), TailOf(ops, e, hunks));
    }
  }

  lemma {:induction false} HunkIsSite(ops: seq<DiffLine>, e: nat, hunk: Interval)
    requires InRange(ops, hunk) && e <= hunk.start && Readable(Part(ops, hunk))
    ensures var site, oldBefore := SiteOf(ops, e, hunk), |OldLines(ops[..e])|;
            && HunkOf(ops, hunk) == HunkAt(site, oldBefore)
            && |OldLines(ops[..hunk.end])| == oldBefore + |site.gap| + |site.old'|
  {
    ReadableIsRead(Part(ops, hunk));
    SplitFront(ops, e, hunk.start);
    SplitFront(ops, hunk.start, hunk.end);
  }

  lemma {:induction false} UnfoldHunks(ops: seq<DiffLine>, e: nat, hunks: seq<Interval>)
    requires Chained(ops, e, hunks) && AllInRange(ops, hunks) && |hunks| > 0
    ensures SitesOf(ops, e, hunks) == [SiteOf(ops, e, hunks[0])] + SitesOf(ops, hunks[0].end, hunks[1..])
    ensures AllInRange(ops, hunks[1..]) && HunksOf(ops, hunks) == [HunkOf(ops, hunks[0])] + HunksOf(ops, hunks[1..])
  {
    AllOrFirst(ops, hunks);
  }

  lemma {:induction false} HunksAreSitesStep(ops: seq<DiffLine>, e: nat, hunk: Interval, next: seq<Site>, hunks: seq<PatchHunk>)
    requires InRange(ops, hunk) && e <= hunk.start && Readable(Part(ops, hunk))
    requires SitesHunks(next, |OldLines(ops[..hunk.end])|) == hunks
    ensures SitesHunks([SiteOf(ops, e, hunk)] + next, |OldLines(ops[..e])|) == [HunkOf(ops, hunk)] + hunks
  {
    HunkIsSite(ops, e, hunk);
    SitesHunksStep(SiteOf(ops, e, hunk), next, HunkOf(ops, hunk), hunks, |OldLines(ops[..e])|);
  }

  /** The hunks read back are those of the sites. */
  lemma {:induction false} HunksAreSites(ops: seq<DiffLine>, e: nat, hunks: seq<Interval>)
    requires Chained(ops, e, hunks) && AllInRange(ops, hunks) && AllReadable(ops, hunks)
    ensures SitesHunks(SitesOf(ops, e, hunks), |OldLines(ops[..e])|) == HunksOf(ops, hunks)
    decreases |hunks|
  {
    if |hunks| > 0 {
      AllOrFirst(ops, hunks);
      UnfoldHunks(ops, e, hunks);
      HunksAreSites(ops, hunks[0].end, hunks[1..]);
      HunksAreSitesStep(ops, e, hunks[0], SitesOf(ops, hunks[0].end, hunks[1..]), HunksOf(ops, hunks[1..]));
    }
  }

  lemma {:induction false} GapOf(ops: seq<DiffLine>, e: nat, hunk: Interval)
    requires InRange(ops, hunk) && e <= hunk.start && AllKept(ops, e, hunk.start)
    ensures var gap := OldLines(ops[e..hunk.start]);
            && |gap| == hunk.start - e
            && (|gap| > 0 ==> gap[|gap| - 1] == ops[hunk.start - 1].text)
  {
    var kept := ops[e..hunk.start];
    KeptProjects(kept);
    if |kept| > 0 {
      assert kept[|kept| - 1] == ops[hunk.start - 1];
    }
  }

  lemma {:induction false} PlacedRightIsUniform(ops: seq<DiffLine>, hunk: Interval, x: string)
    requires InRange(ops, hunk) && |OldLines(Part(ops, hunk))| == 0
    requires hunk.start > 0 && x == ops[hunk.start - 1].text
    ensures PlacedRight(ops, hunk) <==> forall i :: 0 <= i < |Part(ops, hunk)| ==> Part(ops, hunk)[i].text == x
  {
    var part := Part(ops, hunk);
    assert forall i :: hunk.start <= i < hunk.end ==> ops[i] == part[i - hunk.start];
    assert forall i :: 0 <= i < |part| ==> part[i] == ops[hunk.start + i];
  }

  lemma {:induction false} InsertionIsPlacedRight(ops: seq<DiffLine>, hunk: Interval, x: string)
    requires InRange(ops, hunk) && |OldLines(Part(ops, hunk))| == 0
    requires hunk.start > 0 && x == ops[hunk.start - 1].text
    ensures var new' := NewLines(Part(ops, hunk));
            CrFree(Part(ops, hunk)) && PlacedRight(ops, hunk) <==> StripCrs(new') + [x] == [x] + new'
  {
    var part := Part(ops, hunk);
    InsertionProjects(part);
    RotationIsIdentity(NewLines(part), x);
    PlacedRightIsUniform(ops, hunk, x);
  }

  lemma {:induction false} FaithfulIsGood(ops: seq<DiffLine>, e: nat, hunk: Interval)
    requires InRange(ops, hunk) && e <= hunk.start && AllKept(ops, e, hunk.start)
    requires (e > 0 ==> e < hunk.start) && Readable(Part(ops, hunk))
    ensures Faithful(ops, hunk) <==> SiteGood(SiteOf(ops, e, hunk))
  {
    GapOf(ops, e, hunk);
    if |OldLines(Part(ops, hunk))| > 0 {
      CrFreeProjects(Part(ops, hunk));
    } else if hunk.start > 0 {
      InsertionIsPlacedRight(ops, hunk, ops[hunk.start - 1].text);
    }
  }

  lemma {:induction false} SitesAreGood(ops: seq<DiffLine>, e: nat, hunks: seq<Interval>)
    requires Chained(ops, e, hunks) && AllInRange(ops, hunks) && AllReadable(ops, hunks)
    ensures var sites := SitesOf(ops, e, hunks);
            && AllValid(sites) && Gapped(sites) && (e > 0 ==> AllGapped(sites))
            && (AllGood(sites) <==> AllFaithful(ops, hunks))
    decreases |hunks|
  {
    if |hunks| > 0 {
      AllOrFirst(ops, hunks);
      SitesAreGood(ops, hunks[0].end, hunks[1..]);
      ConsSites(SiteOf(ops, e, hunks[0]), SitesOf(ops, hunks[0].end, hunks[1..]));
      FaithfulIsGood(ops, e, hunks[0]);
      GapOf(ops, e, hunks[0]);
    }
  }

  /** Applying the hunks read back from a diff gives the new lines if, and without fuzz only if, all are faithful. */
  lemma {:induction false} HunksExact(ops: seq<DiffLine>, hunks: seq<Interval>, fuzz: nat)
    requires Chained(ops, 0, hunks) && AllInRange(ops, hunks) && AllReadable(ops, hunks)
    requires |OldLines(ops)| + |NewLines(ops)| <= MAX_INT
    ensures var result := ApplyFrom(OldLines(ops), HunksOf(ops, hunks), fuzz, 0, 0);
            && (AllFaithful(ops, hunks) ==> result == Ok(NewLines(ops)))
            && (fuzz == 0 && result == Ok(NewLines(ops)) ==> AllFaithful(ops, hunks))
  {
    var sites, tail := SitesOf(ops, 0, hunks), TailOf(ops, 0, hunks);
    SitesAreGood(ops, 0, hunks);
    SitesProject(ops, 0, hunks);
    HunksAreSites(ops, 0, hunks);
    assert ops[0..] == ops && ops[..0] == [];
    EmptyConcat([], SitesOld(sites, tail));
    EmptyConcat([], SitesNew(sites, tail));
    SitesExact(sites, tail, [], [], 0, fuzz, 0);
  }

  // ----- Hunks that were cut short -----

  function Growth(hunks: seq<PatchHunk>): int {
    if |hunks| == 0 then 0 else |hunks[0].newLines| - |hunks[0].oldLines| + Growth(hunks[1..])
  }

  lemma {:induction false} ApplyGrows(lines: seq<string>, hunks: seq<PatchHunk>, fuzz: nat, index: nat, delta: int)
    ensures var result := ApplyFrom(lines, hunks, fuzz, index, delta);
            result.Ok? ==> |result.value| == |lines| + Growth(hunks)
    decreases |hunks|
  {
    if |hunks| > 0 {
      var hunk := hunks[0];
      var search := SearchInts(lines, hunk.oldLines, Wrap(hunk.oldStart - 1 + delta), fuzz);
      FoundMatches(lines, hunk.oldLines, Wrap(hunk.oldStart - 1 + delta), fuzz, 0);
      if search.Found? {
        ApplyGrows(Splice(lines, search.position, |hunk.oldLines|, hunk.newLines), hunks[1..], fuzz, index + 1,
                   delta + |hunk.newLines| - |hunk.oldLines|);
      }
    }
  }

  lemma {:induction false} ReadPartLoses(part: seq<DiffLine>)
    ensures var read := ReadPart(part);
            && |OldLines(read)| <= |OldLines(part)| && |NewLines(read)| <= |NewLines(part)|
            && (|OldLines(read)| == |OldLines(part)| && |NewLines(read)| == |NewLines(part)| ==> Readable(part))
  {
    if |part| > 0 && !LooksLikeFileHeader(part[0]) {
      var read := ReadPart(part);
      assert read[0] == part[0] && read[1..] == ReadPart(part[1..]);
      ReadPartLoses(part[1..]);
      assert forall i :: 1 <= i < |part| ==> part[i] == part[1..][i - 1];
    }
  }

  /** The hunks as read grow the text at most as the diff does, and equally only when none was cut short. */
  lemma {:induction false} ReadHunksGrow(ops: seq<DiffLine>, e: nat, hunks: seq<Interval>)
    requires Chained(ops, e, hunks) && AllInRange(ops, hunks) && AllCountsAgree(ops, hunks)
    ensures var growth, whole := Growth(HunksOf(ops, hunks)), |NewLines(ops[e..])| - |OldLines(ops[e..])|;
            growth <= whole && (growth == whole ==> AllReadable(ops, hunks))
    decreases |hunks|
  {
    if |hunks| == 0 {
      KeptProjects(ops[e..]);
    } else {
      AllOrFirst(ops, hunks);
      AllCountsAgreeStep(ops, hunks);
      SiteSplits(ops, e, hunks[0]);
      ReadPartLoses(Part(ops, hunks[0]));
      ReadHunksGrow(ops, hunks[0].end, hunks[1..]);
    }
  }

  // ----- Texts -----

  lemma {:induction false} ApplyKeepsLfFree(lines: seq<string>, hunks: seq<PatchHunk>, fuzz: nat, k: nat, delta: int)
    requires AllLfFree(lines) && forall j :: 0 <= j < |hunks| ==> AllLfFree(hunks[j].newLines)
    ensures var result := ApplyFrom(lines, hunks, fuzz, k, delta); result.Ok? ==> AllLfFree(result.value)
    decreases |hunks|
  {
    if |hunks| > 0 {
      var hunk := hunks[0];
      var search := SearchInts(lines, hunk.oldLines, Wrap(hunk.oldStart - 1 + delta), fuzz);
      FoundMatches(lines, hunk.oldLines, Wrap(hunk.oldStart - 1 + delta), fuzz, 0);
      if search.Found? {
        ApplyKeepsLfFree(Splice(lines, search.position, |hunk.oldLines|, hunk.newLines), hunks[1..], fuzz, k + 1,
                         delta + |hunk.newLines| - |hunk.oldLines|);
      }
    }
  }

  lemma {:induction false} TextsAreLfFree(ops: seq<DiffLine>)
    requires AllLfFree(OldLines(ops)) && AllLfFree(NewLines(ops))
    ensures forall i :: 0 <= i < |ops| ==> LfFree(ops[i].text)
  {
    if |ops| > 0 {
      var o, n := OldLines(ops[1..]), NewLines(ops[1..]);
      forall i | 0 <= i < |o| ensures LfFree(o[i]) { assert o[i] == OldLines(ops)[i + |OldPart(ops[0])|]; }
      forall i | 0 <= i < |n| ensures LfFree(n[i]) { assert n[i] == NewLines(ops)[i + |NewPart(ops[0])|]; }
      TextsAreLfFree(ops[1..]);
      assert LfFree(ops[0].text) by {
        if ops[0].kind == Insert { assert NewLines(ops)[0] == ops[0].text; } else { assert OldLines(ops)[0] == ops[0].text; }
      }
    }
  }

  lemma {:induction false} NewLinesAreLfFree(ops: seq<DiffLine>)
    requires forall i :: 0 <= i < |ops| ==> LfFree(ops[i].text)
    ensures AllLfFree(NewLines(ops)) && AllLfFree(StripCrs(NewLines(ops)))
  {
    if |ops| > 0 {
      NewLinesAreLfFree(ops[1..]);
    }
    StripCrsElements(NewLines(ops));
    forall i | 0 <= i < |NewLines(ops)| ensures LfFree(StripCrs(NewLines(ops))[i]) {
      StripCrLfFree(NewLines(ops)[i]);
    }
  }

  /** A text of whole lines determines them, among lists no longer than the one it was split into. */
  lemma {:induction false} TextDeterminesLines(lines: seq<string>, trailing: bool, after: string)
    requires AllLfFree(lines) && |lines| <= |SplitTextLines(after).0|
    ensures JoinText(lines, trailing) == FoldCrlf(after) <==> (lines, trailing) == SplitTextLines(after)
  {
    var (lines', trailing') := SplitTextLines(after);
    var folded := FoldCrlf(after);
    var trimmed := if trailing' then folded[..|folded| - 1] else folded;
    assert Join(lines') == trimmed by {
      if trimmed != "" { JoinSplit(trimmed); }
    }
    assert JoinText(lines', trailing') == folded;
    assert trailing ==> JoinText(lines, trailing)[|JoinText(lines, trailing)| - 1] == '\n';
    if JoinText(lines, trailing) == folded {
      if !trailing && trailing' {
        SplitJoinLonger(lines, trimmed);
      } else {
        assert Join(lines) == trimmed by {
          if trailing { assert (Join(lines) + "\n")[..|folded| - 1] == Join(lines); }
        }
        if |lines| > 0 {
          SplitJoin(lines);
        }
      }
    }
  }

  lemma {:induction false} SplitJoinLonger(lines: seq<string>, trimmed: string)
    requires AllLfFree(lines) && Join(lines) == trimmed + "\n"
    ensures |lines| > |if trimmed == "" then [] else Split(trimmed)|
  {
    assert |lines| > 0;
    SplitJoin(lines);
    SplitAfterLf(trimmed + "\n", "");
    assert trimmed + "\n" + "" == trimmed + "\n";
    SplitLastLf(trimmed);
  }

  lemma {:induction false} SplitLastLf(s: string)
    ensures Split(s + "\n") == Split(s) + [""]
  {
    if s == "" {
      assert s + "\n" == "\n";
    } else {
      SplitLastLf(s[1..]);
      assert (s + "\n")[1..] == s[1..] + "\n";
    }
  }
}
