/**
 Pruning the telemetry directory: retention first, then the hard cap on sessions among what retention kept.

 A writer never drops its own session.
 */
module TelemetryPrune {
  import opened Text
  import Telemetry

  const SESSION_CAP: nat := 50

  /** Thirty days, in seconds. */
  const RETENTION: int := 30 * 24 * 3600

  /** Snapshot files by session and generation, with the time of the last change if it can be told. */
  type Files = map<(string, nat), Option<int>>

  function Sessions(files: Files): set<string> {
    set key | key in files :: key.0
  }

  ghost predicate IsNewest(files: Files, s: string, g: nat) {
    (s, g) in files && forall h :: (s, h) in files ==> h <= g
  }

  /** The newest generation of every session. */
  ghost predicate IsNewestOf(files: Files, newest: map<string, nat>) {
    newest.Keys == Sessions(files) && forall s :: s in newest ==> IsNewest(files, s, newest[s])
  }

  /** Older than the retention; a file whose time cannot be told counts as infinitely old. */
  predicate Expired(files: Files, newest: map<string, nat>, s: string, now: int)
    requires s in newest && (s, newest[s]) in files
  {
    var time := files[(s, newest[s])];
    time.None? || now - time.value > RETENTION
  }

  predicate NotLater(a: Option<int>, b: Option<int>) {
    a.None? || (b.Some? && a.value <= b.value)
  }

  method FindNewest(files: Files) returns (newest: map<string, nat>)
    ensures IsNewestOf(files, newest)
  {
    newest := map[];
    var rest := files.Keys;
    while rest != {}
      invariant rest <= files.Keys
      invariant forall s :: s in newest ==> (s, newest[s]) in files && (s, newest[s]) !in rest
      invariant forall s, g :: (s, g) in files && (s, g) !in rest ==> s in newest && g <= newest[s]
      decreases rest
    {
      var key :| key in rest;
      var (session, generation) := key;
      if session !in newest || generation > newest[session] {
        newest := newest[session := generation];
      }
      rest := rest - {key};
    }
    forall s | s in newest ensures s in Sessions(files) {
      assert (s, newest[s]) in files;
    }
    forall s | s in Sessions(files) ensures s in newest {
      var key :| key in files && key.0 == s;
      assert (s, key.1) in files;
    }
  }

  // ----- Sorting survivors by time -----

  function TimeOf(files: Files, newest: map<string, nat>, s: string): Option<int> {
    if s in newest && (s, newest[s]) in files then files[(s, newest[s])] else None
  }

  ghost predicate ByTime(files: Files, newest: map<string, nat>, sorted: seq<string>) {
    forall i, j :: 0 <= i < j < |sorted| ==> NotLater(TimeOf(files, newest, sorted[i]), TimeOf(files, newest, sorted[j]))
  }

  predicate Distinct(sorted: seq<string>) {
    forall i, j :: 0 <= i < j < |sorted| ==> sorted[i] != sorted[j]
  }

  function Elements(sorted: seq<string>): set<string> {
    set s | s in sorted
  }

  method InsertByTime(files: Files, newest: map<string, nat>, s: string, sorted: seq<string>) returns (more: seq<string>)
    requires ByTime(files, newest, sorted) && Distinct(sorted) && s !in sorted
    ensures ByTime(files, newest, more) && Distinct(more) && Elements(more) == Elements(sorted) + {s}
  {
    hide TimeOf;
    var i := 0;
    while i < |sorted| && NotLater(TimeOf(files, newest, sorted[i]), TimeOf(files, newest, s))
      invariant i <= |sorted|
      invariant forall k :: 0 <= k < i ==> NotLater(TimeOf(files, newest, sorted[k]), TimeOf(files, newest, s))
    {
      i := i + 1;
    }
    assert forall k :: i <= k < |sorted| ==> NotLater(TimeOf(files, newest, s), TimeOf(files, newest, sorted[k])) by {
      forall k | i <= k < |sorted| ensures NotLater(TimeOf(files, newest, s), TimeOf(files, newest, sorted[k])) {
        assert i < k ==> NotLater(TimeOf(files, newest, sorted[i]), TimeOf(files, newest, sorted[k]));
      }
    }
    more := sorted[..i] + [s] + sorted[i..];
    InsertedElements(sorted, s, i);
    InsertedInOrder(files, newest, s, sorted, i);
  }

  lemma {:induction false} InsertedInOrder(files: Files, newest: map<string, nat>, s: string, sorted: seq<string>, i: nat)
    requires ByTime(files, newest, sorted) && Distinct(sorted) && s !in sorted && i <= |sorted|
    requires forall k :: 0 <= k < i ==> NotLater(TimeOf(files, newest, sorted[k]), TimeOf(files, newest, s))
    requires forall k :: i <= k < |sorted| ==> NotLater(TimeOf(files, newest, s), TimeOf(files, newest, sorted[k]))
    ensures var more := sorted[..i] + [s] + sorted[i..]; ByTime(files, newest, more) && Distinct(more)
  {
    hide TimeOf, NotLater;
    var more := sorted[..i] + [s] + sorted[i..];
    assert forall k :: 0 <= k < |more| ==> more[k] == if k < i then sorted[k] else if k == i then s else sorted[k - 1];
  }

  lemma {:induction false} InsertedElements(sorted: seq<string>, s: string, i: nat)
    requires i <= |sorted|
    ensures Elements(sorted[..i] + [s] + sorted[i..]) == Elements(sorted) + {s}
  {
    var more := sorted[..i] + [s] + sorted[i..];
    assert sorted == sorted[..i] + sorted[i..];
    forall x ensures x in more <==> x in sorted || x == s {
      assert x in more <==> x in sorted[..i] || x == s || x in sorted[i..];
    }
  }

  lemma {:induction false} CountDistinct(sorted: seq<string>)
    requires Distinct(sorted)
    ensures |Elements(sorted)| == |sorted|
  {
    if |sorted| == 0 {
      assert Elements(sorted) == {};
    } else {
      var last := sorted[|sorted| - 1];
      var front := sorted[..|sorted| - 1];
      CountDistinct(front);
      assert sorted == front + [last];
      assert Elements(sorted) == Elements(front) + {last};
      assert last !in Elements(front);
    }
  }

  /** The sessions other than self that may be evicted, oldest first. */
  method SortSurvivors(files: Files, newest: map<string, nat>, candidates: set<string>) returns (sorted: seq<string>)
    ensures ByTime(files, newest, sorted) && Distinct(sorted) && Elements(sorted) == candidates
  {
    sorted := [];
    var rest := candidates;
    while rest != {}
      invariant rest <= candidates && ByTime(files, newest, sorted) && Distinct(sorted) && Elements(sorted) == candidates - rest
      decreases rest
    {
      var s :| s in rest;
      assert s !in Elements(sorted);
      sorted := InsertByTime(files, newest, s, sorted);
      rest := rest - {s};
    }
  }

  // ----- Who goes -----

  ghost function ExpiredSessions(files: Files, newest: map<string, nat>, self: string, now: int): set<string>
    requires IsNewestOf(files, newest)
  {
    set s | s in newest && s != self && Expired(files, newest, s, now)
  }

  /** The victims: all the expired, and, only if more than the cap are left, just enough of the oldest others. */
  ghost predicate AreVictims(files: Files, newest: map<string, nat>, self: string, now: int, victims: set<string>)
    requires IsNewestOf(files, newest)
  {
    var expired := ExpiredSessions(files, newest, self, now);
    && expired <= victims <= newest.Keys && self !in victims
    && (|newest.Keys - expired| <= SESSION_CAP ==> victims == expired)
    && (|newest.Keys - expired| > SESSION_CAP ==> |newest.Keys - victims| == SESSION_CAP)
    && (forall s, t :: s in victims - expired && t in newest.Keys - victims && t != self ==>
          NotLater(TimeOf(files, newest, s), TimeOf(files, newest, t)))
  }

  method FindExpired(files: Files, newest: map<string, nat>, self: string, now: int) returns (victims: set<string>)
    requires IsNewestOf(files, newest)
    ensures victims == ExpiredSessions(files, newest, self, now)
  {
    victims := {};
    var rest := newest.Keys;
    while rest != {}
      invariant rest <= newest.Keys && victims == ExpiredSessions(files, newest, self, now) - rest
      decreases rest
    {
      var s :| s in rest;
      if s != self && Expired(files, newest, s, now) {
        victims := victims + {s};
      }
      rest := rest - {s};
    }
  }

  lemma {:induction false} EvictionMeetsCap(all: set<string>, expired: set<string>, evicted: set<string>, self: string, n: nat)
    requires expired <= all && evicted <= all - expired - {self} && |evicted| == n && |all - expired| == SESSION_CAP + n
    ensures |all - (expired + evicted)| == SESSION_CAP
  {
    assert all - expired == (all - (expired + evicted)) + evicted;
    assert (all - (expired + evicted)) !! evicted;
  }

  method ChooseVictims(files: Files, newest: map<string, nat>, self: string, now: int) returns (victims: set<string>)
    requires IsNewestOf(files, newest)
    ensures AreVictims(files, newest, self, now, victims)
  {
    hide AreVictims, TimeOf, NotLater, Expired, ExpiredSessions, ByTime, Distinct, IsNewestOf, Elements;
    victims := FindExpired(files, newest, self, now);
    NoOneElseGoes(files, newest, self, now);
    KeptCount(newest.Keys, victims);
    var kept := |newest.Keys| - |victims|;
    if kept > SESSION_CAP {
      var survivors := SortSurvivors(files, newest, newest.Keys - victims - {self});
      CountDistinct(survivors);
      SurvivorsSuffice(newest.Keys - victims, Elements(survivors), self);
      OldestGo(files, newest, self, now, survivors, kept - SESSION_CAP);
      victims := victims + Elements(survivors[..kept - SESSION_CAP]);
    }
  }

  lemma {:induction false} NoOneElseGoes(files: Files, newest: map<string, nat>, self: string, now: int)
    requires IsNewestOf(files, newest)
    ensures var expired := ExpiredSessions(files, newest, self, now);
            expired <= newest.Keys && (|newest.Keys - expired| <= SESSION_CAP ==> AreVictims(files, newest, self, now, expired))
  {
  }

  lemma {:induction false} KeptCount(all: set<string>, expired: set<string>)
    requires expired <= all
    ensures |all - expired| == |all| - |expired|
  {
    assert all == (all - expired) + expired;
  }

  lemma {:induction false} OldestFirst(files: Files, newest: map<string, nat>, survivors: seq<string>, n: nat, s: string, t: string)
    requires ByTime(files, newest, survivors) && n <= |survivors|
    requires s in survivors[..n] && t in survivors && t !in survivors[..n]
    ensures NotLater(TimeOf(files, newest, s), TimeOf(files, newest, t))
  {
    var i :| 0 <= i < n && survivors[..n][i] == s;
    var j :| 0 <= j < |survivors| && survivors[j] == t;
    assert forall k :: 0 <= k < n ==> survivors[..n][k] == survivors[k];
    assert survivors[i] == s;
  }

  lemma {:induction false} OldestGo(files: Files, newest: map<string, nat>, self: string, now: int, survivors: seq<string>, n: nat)
    requires IsNewestOf(files, newest)
    requires ByTime(files, newest, survivors) && Distinct(survivors) && 0 < n <= |survivors|
    requires var expired := ExpiredSessions(files, newest, self, now);
             Elements(survivors) == newest.Keys - expired - {self} && |newest.Keys - expired| == SESSION_CAP + n
    ensures AreVictims(files, newest, self, now, ExpiredSessions(files, newest, self, now) + Elements(survivors[..n]))
  {
    hide NotLater, TimeOf, Expired;
    var expired, evicted := ExpiredSessions(files, newest, self, now), Elements(survivors[..n]);
    assert evicted <= Elements(survivors);
    CountDistinct(survivors[..n]);
    EvictionMeetsCap(newest.Keys, expired, evicted, self, n);
    forall s, t | s in expired + evicted - expired && t in newest.Keys - (expired + evicted) && t != self
      ensures NotLater(TimeOf(files, newest, s), TimeOf(files, newest, t))
    {
      assert t in Elements(survivors);
      OldestFirst(files, newest, survivors, n, s, t);
    }
  }

  lemma {:induction false} SurvivorsSuffice(kept: set<string>, survivors: set<string>, self: string)
    requires kept <= survivors + {self}
    ensures |kept| <= |survivors| + 1
  {
    assert kept - {self} <= survivors;
    SubsetIsSmaller(kept - {self}, survivors);
    assert kept <= (kept - {self}) + {self};
    SubsetIsSmaller(kept, (kept - {self}) + {self});
  }

  /** What is left without the sessions. */
  function Without(files: Files, sessions: set<string>): Files {
    map key | key in files && key.0 !in sessions :: files[key]
  }

  /** The name of a snapshot file holds a positive generation. */
  ghost predicate Numbered(files: Files) {
    forall s, g :: (s, g) in files ==> g >= 1
  }

  /** All files of the victims, and of no one else, are removed. */
  method Prune(files: Files, self: string, now: int) returns (after: Files)
    requires Numbered(files)
    ensures exists newest, victims ::
              IsNewestOf(files, newest) && AreVictims(files, newest, self, now, victims) && after == Without(files, victims)
    ensures |Sessions(after)| <= 50
    ensures forall g :: (self, g) in files ==> (self, g) in after && after[(self, g)] == files[(self, g)]
  {
    hide AreVictims;
    var found := FindNewest(files);
    var chosen := ChooseVictims(files, found, self, now);
    VictimsAreListed(files, found, self, now, chosen);
    after := files;
    var rest := chosen;
    while rest != {}
      invariant rest <= chosen && after == Without(files, chosen - rest)
      decreases rest
    {
      var s :| s in rest;
      after := RemoveGenerations(after, s, found[s]);
      WithoutOneMore(files, chosen - rest, s);
      rest := rest - {s};
      assert chosen - rest == chosen - (rest + {s}) + {s};
    }
    assert chosen - rest == chosen;
    PruneMeetsTheCap(files, found, self, now, chosen);
  }

  lemma {:induction false} VictimsAreListed(files: Files, newest: map<string, nat>, self: string, now: int, victims: set<string>)
    requires IsNewestOf(files, newest) && AreVictims(files, newest, self, now, victims)
    ensures victims <= newest.Keys && Without(files, {}) == files
  {
  }

  lemma {:induction false} WithoutOneMore(files: Files, gone: set<string>, s: string)
    ensures Without(Without(files, gone), {s}) == Without(files, gone + {s})
  {
  }

  method RemoveGenerations(files: Files, s: string, newest: nat) returns (after: Files)
    requires Numbered(files) && forall g :: (s, g) in files ==> g <= newest
    ensures after == Without(files, {s})
  {
    after := files;
    for generation := 1 to newest + 1
      invariant after == map key | key in files && (key.0 != s || key.1 >= generation) :: files[key]
    {
      after := after - {(s, generation)};
    }
  }

  lemma {:induction false} SessionsLeft(files: Files, newest: map<string, nat>, victims: set<string>)
    requires IsNewestOf(files, newest) && victims <= newest.Keys
    ensures Sessions(Without(files, victims)) == newest.Keys - victims
  {
    var after := Without(files, victims);
    forall s ensures s in Sessions(after) <==> s in newest && s !in victims {
      if s in newest && s !in victims {
        assert (s, newest[s]) in after;
      }
      if s in Sessions(after) {
        var key :| key in after && key.0 == s;
        assert key in files;
        assert s in Sessions(files);
      }
    }
  }

  /** At most fifty sessions are left, none of them expired but perhaps the pruning one, whose files all stay. */
  lemma {:induction false} PruneMeetsTheCap(files: Files, newest: map<string, nat>, self: string, now: int, victims: set<string>)
    requires IsNewestOf(files, newest) && AreVictims(files, newest, self, now, victims)
    ensures var after := Without(files, victims);
            && |Sessions(after)| <= 50
            && (forall g :: (self, g) in files ==> (self, g) in after && after[(self, g)] == files[(self, g)])
            && (forall s :: s in Sessions(after) && s != self ==>
                  s in newest && files[(s, newest[s])].Some? && now - files[(s, newest[s])].value <= 2592000)
  {
    SessionsLeft(files, newest, victims);
  }

  /** Its newest file is not from the last thirty days, or its time cannot be told. */
  ghost predicate IsOld(files: Files, newest: map<string, nat>, s: string, now: int)
    requires s in newest && (s, newest[s]) in files
  {
    match files[(s, newest[s])]
    case None => true
    case Some(time) => now > time + 2592000
  }

  /** Old sessions go, young ones only to get down to fifty, and then to exactly fifty, none younger than one that stays. */
  lemma {:induction false} YoungSessionsGoForTheCapOnly(files: Files, newest: map<string, nat>, self: string, now: int, victims: set<string>)
    requires IsNewestOf(files, newest) && AreVictims(files, newest, self, now, victims)
    ensures self !in victims && victims <= newest.Keys
    ensures forall s :: s in newest && s != self && IsOld(files, newest, s, now) ==> s in victims
    ensures (exists s :: s in victims && !IsOld(files, newest, s, now)) ==> |newest.Keys - victims| == 50
    ensures forall s, t :: s in victims && !IsOld(files, newest, s, now) && t in newest.Keys - victims && t != self ==>
              files[(t, newest[t])].Some? && files[(s, newest[s])].value <= files[(t, newest[t])].value
  {
    var expired := ExpiredSessions(files, newest, self, now);
    forall s | s in newest ensures Expired(files, newest, s, now) <==> IsOld(files, newest, s, now) {
      assert IsNewest(files, s, newest[s]);
    }
    assert forall s :: s in expired <==> s in newest && s != self && IsOld(files, newest, s, now);
    forall s, t | s in victims && !IsOld(files, newest, s, now) && t in newest.Keys - victims && t != self
      ensures files[(t, newest[t])].Some? && files[(s, newest[s])].value <= files[(t, newest[t])].value
    {
      assert IsNewest(files, s, newest[s]) && IsNewest(files, t, newest[t]);
      assert s in victims - expired;
      assert NotLater(TimeOf(files, newest, s), TimeOf(files, newest, t));
    }
  }

  // ----- Loading after a prune -----

  /** The snapshots that are left without the sessions. */
  function SnapshotsWithout(disk: map<(string, nat), Telemetry.Totals>, sessions: set<string>): map<(string, nat), Telemetry.Totals> {
    map key | key in disk && key.0 !in sessions :: disk[key]
  }

  function Those(best: map<string, Telemetry.Totals>, sessions: set<string>): map<string, Telemetry.Totals> {
    map s | s in best && s in sessions :: best[s]
  }

  lemma {:induction false} NewestWithout(disk: map<(string, nat), Telemetry.Totals>, sessions: set<string>, s: string, g: nat)
    requires s !in sessions
    ensures Telemetry.IsNewest(SnapshotsWithout(disk, sessions), s, g) <==> Telemetry.IsNewest(disk, s, g)
  {
    var rest := SnapshotsWithout(disk, sessions);
    assert forall h: nat :: (s, h) in rest <==> (s, h) in disk;
  }

  lemma {:induction false} BestWithout(disk: map<(string, nat), Telemetry.Totals>, sessions: set<string>, best: map<string, Telemetry.Totals>,
                          left: map<string, Telemetry.Totals>)
    requires Telemetry.IsBest(disk, best) && Telemetry.IsBest(SnapshotsWithout(disk, sessions), left)
    ensures left == best - sessions
  {
    var rest := SnapshotsWithout(disk, sessions);
    forall s | s in left ensures s !in sessions && s in best && left[s] == best[s] {
      var g: nat :| Telemetry.IsNewest(rest, s, g) && left[s] == rest[(s, g)];
      NewestWithout(disk, sessions, s, g);
      var h: nat :| Telemetry.IsNewest(disk, s, h) && best[s] == disk[(s, h)];
      assert g == h;
    }
    forall s | s in best && s !in sessions ensures s in left {
      var h: nat :| Telemetry.IsNewest(disk, s, h) && best[s] == disk[(s, h)];
      NewestWithout(disk, sessions, s, h);
      assert (s, h) in rest;
    }
  }

  /** A sum is that of some of the sessions and that of the others. */
  lemma {:induction false} SumSplits(best: map<string, Telemetry.Totals>, sessions: set<string>, counter: Telemetry.Counter)
    requires sessions <= best.Keys
    ensures Telemetry.SumOf(best, counter) == Telemetry.SumOf(best - sessions, counter) + Telemetry.SumOf(Those(best, sessions), counter)
    decreases sessions
  {
    if sessions == {} {
      assert best - sessions == best && Those(best, sessions) == map[];
    } else {
      var s :| s in sessions;
      var rest, some := sessions - {s}, Those(best, sessions);
      SumSplits(best, rest, counter);
      Telemetry.SumWithout(best - rest, counter, s);
      Telemetry.SumWithout(some, counter, s);
      assert (best - rest) - {s} == best - sessions && (best - rest)[s] == best[s];
      assert some - {s} == Those(best, rest) && some[s] == best[s];
    }
  }

  /**
   After a prune a load finds exactly the sessions that survive, at most fifty, each with its newest published total,
   and what it no longer counts are exactly the newest published totals of the victims.
   */
  lemma {:induction false} LoadAfterPrune(system: Telemetry.System, files: Files, newest: map<string, nat>, self: string, now: int,
                             victims: set<string>, best: map<string, Telemetry.Totals>, left: map<string, Telemetry.Totals>,
                             counter: Telemetry.Counter)
    requires Telemetry.Inv(system) && files.Keys == system.disk.Keys
    requires IsNewestOf(files, newest) && AreVictims(files, newest, self, now, victims)
    requires Telemetry.IsBest(system.disk, best) && Telemetry.IsBest(SnapshotsWithout(system.disk, victims), left)
    ensures left.Keys == system.published.Keys - victims && |left| <= 50
    ensures self in system.published ==> self in left
    ensures forall s :: s in left ==>
              && s in system.history && system.published[s].version < |system.history[s]|
              && left[s] == system.history[s][system.published[s].version]
    ensures victims <= system.published.Keys
    ensures Telemetry.SumOf(best, counter) == Telemetry.SumOf(left, counter) + Telemetry.SumOf(Those(best, victims), counter)
  {
    hide Telemetry.Inv, Telemetry.IsBest, Telemetry.SumOf, Expired;
    Telemetry.ScanFindsLastPublished(system, best);
    BestWithout(system.disk, victims, best, left);
    SessionsOfDisk(system, files, best);
    VictimsAreListed(files, newest, self, now, victims);
    SumSplits(best, victims, counter);
    PruneMeetsTheCap(files, newest, self, now, victims);
    SessionsLeft(files, newest, victims);
    assert left.Keys == newest.Keys - victims;
    assert |left| == |left.Keys|;
  }

  lemma {:induction false} SessionsOfDisk(system: Telemetry.System, files: Files, best: map<string, Telemetry.Totals>)
    requires files.Keys == system.disk.Keys && Telemetry.IsBest(system.disk, best)
    ensures best.Keys == Sessions(files)
  {
    forall s | s in best ensures s in Sessions(files) {
      var g: nat :| Telemetry.IsNewest(system.disk, s, g) && best[s] == system.disk[(s, g)];
      assert (s, g) in files;
    }
    forall s | s in Sessions(files) ensures s in best {
      var key :| key in files && key.0 == s;
      assert (s, key.1) in system.disk;
    }
  }
}
