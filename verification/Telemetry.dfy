/** Sessions publish cumulative snapshots into one directory, with failures and crashes between any two steps. */
module Telemetry {
  import opened Text

  // ----- Counters -----

  datatype Counter =
    | Call(tool: string)
    | TerseTokens
    | DedupBytes
    | WriteBytes
    | Considered
    | Delivered

  type Totals = map<Counter, nat>

  function Get(totals: Totals, counter: Counter): nat {
    if counter in totals then totals[counter] else 0
  }

  function Add(totals: Totals, counter: Counter, n: nat): Totals {
    totals[counter := Get(totals, counter) + n]
  }

  /** No counter is higher. */
  ghost predicate AtMost(a: Totals, b: Totals) {
    forall counter :: Get(a, counter) <= Get(b, counter)
  }

  // ----- Sessions and the directory -----

  /** A flush between its steps. */
  datatype Phase =
    | Idle
    | Writing(next: nat, copied: Totals, copiedVersion: nat)
    | Committing(next: nat, copiedVersion: nat)
    | Removing(next: nat)

  datatype Store = Store(current: Totals, version: nat, flushedVersion: nat, generation: nat, phase: Phase)

  /** The newest snapshot a session published: its generation and the version it was copied at. */
  datatype Publication = Publication(generation: nat, version: nat)

  /**
   `stores` are the running sessions and `disk` the snapshot files by session and generation.  `history` and
   `published` only remember: the totals of a session after each of its records, and its newest publication.
   */
  datatype System = System(stores: map<string, Store>, disk: map<(string, nat), Totals>,
                           history: map<string, seq<Totals>>, published: map<string, Publication>)

  const EMPTY := System(map[], map[], map[], map[])

  datatype Saving = Terse | Dedup | Write

  datatype Event =
    | Start(session: string)
    | RecordCall(session: string, tool: string)
    | RecordTotal(session: string, saving: Saving, saved: int)
    | RecordCompactBytes(session: string, considered: int, delivered: int)
    | BeginFlush(session: string)
    | Publish(session: string, ok: bool)
    | Commit(session: string)
    | RemoveOld(session: string, ok: bool)
    | Crash(session: string)

  // ----- Steps of one store -----

  function Recorded(totals: Totals, event: Event): Totals {
    match event
    case RecordCall(_, tool) => if tool == "" then totals else Add(totals, Call(tool), 1)
    case RecordTotal(_, saving, saved) =>
      if saved <= 0 then totals
      else Add(totals, match saving case Terse => TerseTokens case Dedup => DedupBytes case Write => WriteBytes, saved)
    case RecordCompactBytes(_, considered, delivered) =>
      if considered <= 0 then totals
      else Add(Add(totals, Considered, considered), Delivered, Max(delivered, 0))
    case _ => totals
  }

  /** The event bumps the version. */
  predicate Records(event: Event) {
    match event
    case RecordCall(_, tool) => tool != ""
    case RecordTotal(_, _, saved) => saved > 0
    case RecordCompactBytes(_, considered, _) => considered > 0
    case _ => false
  }

  function Begun(store: Store): Store {
    if !store.phase.Idle? || store.version == store.flushedVersion then store
    else store.(phase := Writing(store.generation + 1, store.current, store.version))
  }

  function Committed(store: Store): Store
    requires store.phase.Committing?
  {
    store.(flushedVersion := Max(store.phase.copiedVersion, store.flushedVersion),
           generation := store.phase.next, phase := Removing(store.phase.next))
  }

  /** One step.  An event that its session is not ready for changes nothing. */
  function Step(system: System, event: Event): System {
    var s := event.session;
    if event.Start? then
      if s in system.history then system
      else system.(stores := system.stores[s := Store(map[], 0, 0, 0, Idle)], history := system.history[s := [map[]]])
    else if s !in system.stores || s !in system.history then system
    else
      var store := system.stores[s];
      match event
      case BeginFlush(_) => system.(stores := system.stores[s := Begun(store)])
      case Publish(_, ok) =>
        if !store.phase.Writing? then system
        else if !ok || (s, store.phase.next) in system.disk then system.(stores := system.stores[s := store.(phase := Idle)])
        else system.(stores := system.stores[s := store.(phase := Committing(store.phase.next, store.phase.copiedVersion))],
                     disk := system.disk[(s, store.phase.next) := store.phase.copied],
                     published := system.published[s := Publication(store.phase.next, store.phase.copiedVersion)])
      case Commit(_) =>
        if !store.phase.Committing? then system else system.(stores := system.stores[s := Committed(store)])
      case RemoveOld(_, ok) =>
        if !store.phase.Removing? then system
        else system.(stores := system.stores[s := store.(phase := Idle)],
                     disk := if ok && store.phase.next > 1 then system.disk - {(s, store.phase.next - 1)} else system.disk)
      case Crash(_) => system.(stores := system.stores - {s})
      case _ => if Records(event) then Counted(system, s, Recorded(store.current, event)) else system
  }

  function Counted(system: System, s: string, totals: Totals): System
    requires s in system.stores && s in system.history
  {
    var store := system.stores[s];
    system.(stores := system.stores[s := store.(current := totals, version := store.version + 1)],
            history := system.history[s := system.history[s] + [totals]])
  }

  function Run(system: System, events: seq<Event>): System
    decreases |events|
  {
    if |events| == 0 then system else Run(Step(system, events[0]), events[1..])
  }

  // ----- What every step keeps -----

  /** Only grows, from nothing. */
  ghost predicate Growing(history: seq<Totals>) {
    |history| > 0 && history[0] == map[] && forall i, j :: 0 <= i <= j < |history| ==> AtMost(history[i], history[j])
  }

  ghost predicate StoreAgrees(store: Store, history: seq<Totals>, published: Option<Publication>)
  {
    var generation, version := if published.Some? then published.value.generation else 0, if published.Some? then published.value.version else 0;
    && store.version == |history| - 1 && store.flushedVersion <= store.version
    && store.current == history[store.version]
    && match store.phase
       case Idle => store.generation == generation && store.flushedVersion == version
       case Writing(next, copied, copiedVersion) =>
         && store.generation == generation && store.flushedVersion == version
         && next == generation + 1 && version < copiedVersion <= store.version && copied == history[copiedVersion]
       case Committing(next, copiedVersion) =>
         && published == Some(Publication(next, copiedVersion)) && copiedVersion <= store.version
         && store.generation == next - 1 && store.flushedVersion < copiedVersion
       case Removing(next) =>
         && store.generation == generation == next && store.flushedVersion == version && published.Some?
  }

  /** The newest file of a session is its newest publication, and every file holds a past total of the session. */
  ghost predicate FilesAgree(disk: map<(string, nat), Totals>, s: string, history: seq<Totals>, published: Option<Publication>) {
    && (published.Some? ==>
          && 0 < published.value.generation && 0 < published.value.version < |history|
          && (s, published.value.generation) in disk
          && disk[(s, published.value.generation)] == history[published.value.version])
    && (forall g :: (s, g) in disk ==> published.Some? && 0 < g <= published.value.generation && disk[(s, g)] in history)
  }

  ghost function PublishedBy(system: System, s: string): Option<Publication> {
    if s in system.published then Some(system.published[s]) else None
  }

  ghost predicate SessionInv(system: System, s: string) {
    && (s !in system.history ==> s !in system.stores && s !in system.published && forall g :: (s, g) !in system.disk)
    && (s in system.history ==>
          && Growing(system.history[s]) && FilesAgree(system.disk, s, system.history[s], PublishedBy(system, s))
          && (s in system.stores ==> StoreAgrees(system.stores[s], system.history[s], PublishedBy(system, s))))
  }

  ghost predicate Inv(system: System) {
    forall s :: SessionInv(system, s)
  }

  lemma {:induction false} RecordingGrows(totals: Totals, event: Event)
    ensures AtMost(totals, Recorded(totals, event))
  {
  }

  lemma {:induction false} HistoryGrows(history: seq<Totals>, totals: Totals)
    requires Growing(history) && AtMost(history[|history| - 1], totals)
    ensures Growing(history + [totals])
  {
    var more := history + [totals];
    forall i, j | 0 <= i <= j < |more| ensures AtMost(more[i], more[j]) {
      if j == |history| && i < j {
        assert AtMost(history[i], history[|history| - 1]);
      }
    }
  }

  /** The part of the system that belongs to a session. */
  ghost predicate SameFor(a: System, b: System, s: string) {
    && (s in a.stores <==> s in b.stores) && (s in a.stores ==> a.stores[s] == b.stores[s])
    && (s in a.history <==> s in b.history) && (s in a.history ==> a.history[s] == b.history[s])
    && PublishedBy(a, s) == PublishedBy(b, s)
    && (forall g :: (s, g) in a.disk <==> (s, g) in b.disk) && (forall g :: (s, g) in a.disk ==> a.disk[(s, g)] == b.disk[(s, g)])
  }

  lemma {:induction false} OthersKeepStores(system: System, event: Event, s: string)
    requires s != event.session
    ensures var after := Step(system, event);
            && (s in system.stores <==> s in after.stores) && (s in system.stores ==> system.stores[s] == after.stores[s])
            && (s in system.history <==> s in after.history) && (s in system.history ==> system.history[s] == after.history[s])
            && PublishedBy(system, s) == PublishedBy(after, s)
  {
    hide Recorded, Begun, Committed, Records;
  }

  lemma {:induction false} OthersKeepFiles(system: System, event: Event, s: string, g: nat)
    requires s != event.session
    ensures var disk := Step(system, event).disk;
            ((s, g) in system.disk <==> (s, g) in disk) && ((s, g) in system.disk ==> system.disk[(s, g)] == disk[(s, g)])
  {
    hide Recorded, Begun, Committed, Records;
  }

  /** A step is the business of one session. */
  lemma {:induction false} OthersAreUntouched(system: System, event: Event, s: string)
    requires s != event.session
    ensures SameFor(system, Step(system, event), s)
  {
    hide Step, PublishedBy;
    var disk := Step(system, event).disk;
    OthersKeepStores(system, event, s);
    forall g: nat ensures ((s, g) in system.disk <==> (s, g) in disk) && ((s, g) in system.disk ==> system.disk[(s, g)] == disk[(s, g)]) {
      OthersKeepFiles(system, event, s, g);
    }
  }

  lemma {:induction false} SameInv(a: System, b: System, s: string)
    requires SameFor(a, b, s) && SessionInv(a, s)
    ensures SessionInv(b, s)
  {
  }

  lemma {:induction false} CountingKeepsSession(system: System, s: string, totals: Totals)
    requires SessionInv(system, s) && s in system.stores && s in system.history
    requires AtMost(system.stores[s].current, totals)
    ensures SessionInv(Counted(system, s, totals), s)
  {
    HistoryGrows(system.history[s], totals);
  }

  predicate IsRecord(event: Event) {
    event.RecordCall? || event.RecordTotal? || event.RecordCompactBytes?
  }

  lemma {:induction false} RecordKeepsSession(system: System, event: Event)
    requires IsRecord(event) && SessionInv(system, event.session)
    ensures SessionInv(Step(system, event), event.session)
  {
    hide Recorded, Counted, Records;
    var s := event.session;
    if s in system.stores {
      RecordingGrows(system.stores[s].current, event);
      CountingKeepsSession(system, s, Recorded(system.stores[s].current, event));
    }
  }

  lemma {:induction false} StepKeepsSession(system: System, event: Event)
    requires SessionInv(system, event.session)
    ensures SessionInv(Step(system, event), event.session)
  {
    if IsRecord(event) {
      hide Step, SessionInv;
      RecordKeepsSession(system, event);
    }
    hide Recorded, Counted, Records;
  }

  lemma {:induction false} StepKeepsInv(system: System, event: Event)
    requires Inv(system)
    ensures Inv(Step(system, event))
  {
    forall s ensures SessionInv(Step(system, event), s) {
      if s == event.session {
        StepKeepsSession(system, event);
      } else {
        OthersAreUntouched(system, event, s);
        SameInv(system, Step(system, event), s);
      }
    }
  }

  lemma {:induction false} RunKeepsInv(system: System, events: seq<Event>)
    requires Inv(system)
    ensures Inv(Run(system, events))
    decreases |events|
  {
    if |events| > 0 {
      StepKeepsInv(system, events[0]);
      RunKeepsInv(Step(system, events[0]), events[1..]);
    }
  }

  /** The runs of the system. */
  lemma {:induction false} EveryRunIsSound(events: seq<Event>)
    ensures Inv(Run(EMPTY, events))
  {
    assert forall s :: SessionInv(EMPTY, s);
    RunKeepsInv(EMPTY, events);
  }

  // ----- What the counters count -----

  /** What one event adds to a counter. */
  function Contribution(event: Event, counter: Counter): nat {
    match counter
    case Call(tool) => if event.RecordCall? && event.tool == tool && tool != "" then 1 else 0
    case TerseTokens => if event.RecordTotal? && event.saving == Terse && event.saved > 0 then event.saved else 0
    case DedupBytes => if event.RecordTotal? && event.saving == Dedup && event.saved > 0 then event.saved else 0
    case WriteBytes => if event.RecordTotal? && event.saving == Write && event.saved > 0 then event.saved else 0
    case Considered => if event.RecordCompactBytes? && event.considered > 0 then event.considered else 0
    case Delivered => if event.RecordCompactBytes? && event.considered > 0 && event.delivered > 0 then event.delivered else 0
  }

  /** What the events of a run add to a counter of the session, while it runs. */
  function Sum(system: System, events: seq<Event>, s: string, counter: Counter): nat
    decreases |events|
  {
    if |events| == 0 then 0
    else
      (if events[0].session == s && s in system.stores && s in system.history then Contribution(events[0], counter) else 0)
      + Sum(Step(system, events[0]), events[1..], s, counter)
  }

  /** A counter of the session: zero before it starts, and as it was last when it has stopped. */
  function Tally(system: System, s: string, counter: Counter): nat {
    if s in system.history && |system.history[s]| > 0 then Get(system.history[s][|system.history[s]| - 1], counter) else 0
  }

  lemma {:induction false} RecordedAdds(totals: Totals, event: Event, counter: Counter)
    ensures Get(Recorded(totals, event), counter) == Get(totals, counter) + Contribution(event, counter)
    ensures !Records(event) ==> Recorded(totals, event) == totals
  {
  }

  lemma {:induction false} StepAdds(system: System, event: Event, s: string, counter: Counter)
    requires SessionInv(system, s)
    ensures Tally(Step(system, event), s, counter)
         == Tally(system, s, counter)
            + if event.session == s && s in system.stores && s in system.history then Contribution(event, counter) else 0
  {
    hide Recorded, Contribution, Get, SessionInv;
    CurrentIsLast(system, s);
    if s == event.session && s in system.stores {
      RecordedAdds(system.stores[s].current, event, counter);
    }
    NothingStarted(counter);
  }

  lemma {:induction false} CurrentIsLast(system: System, s: string)
    requires SessionInv(system, s)
    ensures s in system.stores ==>
              s in system.history && |system.history[s]| > 0
              && system.stores[s].current == system.history[s][|system.history[s]| - 1]
  {
  }

  lemma {:induction false} NothingStarted(counter: Counter)
    ensures Get(map[], counter) == 0
  {
  }

  /** Every counter is the sum of what was recorded, event by event. */
  lemma {:induction false} CountersAreSums(system: System, events: seq<Event>, s: string, counter: Counter)
    requires Inv(system)
    ensures Tally(Run(system, events), s, counter) == Tally(system, s, counter) + Sum(system, events, s, counter)
    decreases |events|
  {
    hide Step;
    if |events| > 0 {
      assert SessionInv(system, s);
      StepAdds(system, events[0], s, counter);
      StepKeepsInv(system, events[0]);
      CountersAreSums(Step(system, events[0]), events[1..], s, counter);
    }
  }

  /** A version is a change of the totals. */
  lemma {:induction false} VersionsCountChanges(system: System, event: Event, s: string)
    requires s in system.stores && s in system.history && s in Step(system, event).stores
    ensures var before, after := system.stores[s], Step(system, event).stores[s];
            after.version == before.version + if after.current == before.current then 0 else 1
  {
    if event.session != s {
      OthersAreUntouched(system, event, s);
    } else {
      RecordedChanges(system.stores[s].current, event);
    }
  }

  lemma {:induction false} RecordedChanges(totals: Totals, event: Event)
    ensures Recorded(totals, event) == totals <==> !Records(event)
  {
    match event
    case RecordCall(_, tool) => assert tool != "" ==> Get(Recorded(totals, event), Call(tool)) == Get(totals, Call(tool)) + 1;
    case RecordTotal(_, saving, saved) =>
      var counter := match saving case Terse => TerseTokens case Dedup => DedupBytes case Write => WriteBytes;
      assert saved > 0 ==> Get(Recorded(totals, event), counter) == Get(totals, counter) + saved;
    case RecordCompactBytes(_, considered, _) =>
      assert considered > 0 ==> Get(Recorded(totals, event), Considered) == Get(totals, Considered) + considered;
    case _ =>
  }

  /** A session that starts runs, with nothing counted. */
  lemma {:induction false} SessionsStart(system: System, s: string)
    requires s !in system.history
    ensures var started := Step(system, Start(s));
            && started.stores.Keys == system.stores.Keys + {s} && started.history.Keys == system.history.Keys + {s}
            && started.stores[s].current == map[] && started.stores[s].phase == Idle && started.stores[s].generation == 0
            && started.disk == system.disk && started.published == system.published
  {
  }

  /** Files go by removals that succeed alone, and none is ever changed. */
  lemma {:induction false} FilesStay(system: System, events: seq<Event>)
    requires forall event :: event in events && event.RemoveOld? ==> !event.ok
    ensures forall file :: file in system.disk ==> file in Run(system, events).disk && Run(system, events).disk[file] == system.disk[file]
    decreases |events|
  {
    if |events| > 0 {
      assert events[0] in events;
      FilesStay(Step(system, events[0]), events[1..]);
    }
  }

  /** A session whose writes all fail publishes nothing. */
  lemma {:induction false} FailedWritesPublishNothing(system: System, events: seq<Event>, s: string)
    requires forall event :: event in events && event.session == s && event.Publish? ==> !event.ok
    ensures var later := Run(system, events);
            && (s in later.published <==> s in system.published)
            && (s in system.published ==> later.published[s] == system.published[s])
            && forall g: nat :: (s, g) in later.disk ==> (s, g) in system.disk && later.disk[(s, g)] == system.disk[(s, g)]
    decreases |events|
  {
    if |events| > 0 {
      var event := events[0];
      assert event in events;
      if event.session != s {
        OthersAreUntouched(system, event, s);
        forall g: nat ensures (s, g) in Step(system, event).disk <==> (s, g) in system.disk {
          OthersKeepFiles(system, event, s, g);
        }
      }
      FailedWritesPublishNothing(Step(system, event), events[1..], s);
    }
  }

  // ----- Loading -----

  /** The snapshot files of a session, by generation, end at g. */
  ghost predicate IsNewest(disk: map<(string, nat), Totals>, s: string, g: nat) {
    (s, g) in disk && forall h :: (s, h) in disk ==> h <= g
  }

  /** By session, the totals of its newest file. */
  ghost predicate IsBest(disk: map<(string, nat), Totals>, best: map<string, Totals>) {
    && (forall s, g :: (s, g) in disk ==> s in best)
    && (forall s :: s in best ==> exists g :: IsNewest(disk, s, g) && best[s] == disk[(s, g)])
  }

  /** The sum of a counter over sessions. */
  ghost function SumOf(best: map<string, Totals>, counter: Counter): nat
    decreases |best|
  {
    if best == map[] then 0
    else
      var s :| s in best;
      SmallerWithout(best, s);
      Get(best[s], counter) + SumOf(best - {s}, counter)
  }

  lemma {:induction false} SmallerWithout(best: map<string, Totals>, s: string)
    requires s in best
    ensures |best - {s}| < |best|
  {
    assert (best - {s}).Keys == best.Keys - {s};
    assert |best.Keys| == |best| && |(best - {s}).Keys| == |best - {s}|;
  }

  /** In whatever order the sessions are added up. */
  lemma {:induction false} SumWithout(best: map<string, Totals>, counter: Counter, s: string)
    requires s in best
    ensures SumOf(best, counter) == Get(best[s], counter) + SumOf(best - {s}, counter)
    decreases |best|
  {
    var t :| t in best && SumOf(best, counter) == Get(best[t], counter) + SumOf(best - {t}, counter);
    if t != s {
      SmallerWithout(best, t);
      SumWithout(best - {t}, counter, s);
      SmallerWithout(best, s);
      SumWithout(best - {s}, counter, t);
      assert (best - {t}) - {s} == (best - {s}) - {t};
    }
  }

  /** scanTotals over a directory at rest: the best snapshot of every session, found in whatever order the files come. */
  method ScanBest(disk: map<(string, nat), Totals>) returns (best: map<string, Totals>)
    ensures IsBest(disk, best)
  {
    best := map[];
    var generations: map<string, nat> := map[];
    var rest := disk.Keys;
    while rest != {}
      invariant rest <= disk.Keys && best.Keys == generations.Keys
      invariant forall s :: s in best ==> (s, generations[s]) in disk && (s, generations[s]) !in rest && best[s] == disk[(s, generations[s])]
      invariant forall s, g :: (s, g) in disk && (s, g) !in rest ==> s in best && g <= generations[s]
      decreases rest
    {
      var key :| key in rest;
      var (session, generation) := key;
      if session !in best || generation > generations[session] {
        best := best[session := disk[key]];
        generations := generations[session := generation];
      }
      rest := rest - {key};
    }
    forall s | s in best ensures exists g :: IsNewest(disk, s, g) && best[s] == disk[(s, g)] {
      assert IsNewest(disk, s, generations[s]);
    }
  }

  method Total(best: map<string, Totals>, counter: Counter) returns (sum: nat)
    ensures sum == SumOf(best, counter)
  {
    sum := 0;
    var rest := best;
    while rest != map[]
      invariant sum + SumOf(rest, counter) == SumOf(best, counter)
      decreases |rest|
    {
      var s :| s in rest;
      SumWithout(rest, counter, s);
      SmallerWithout(rest, s);
      sum := sum + Get(rest[s], counter);
      rest := rest - {s};
    }
  }

  /** By session, what it last published. */
  ghost predicate IsLastPublished(system: System, best: map<string, Totals>) {
    && best.Keys == system.published.Keys
    && forall s :: s in best ==>
         s in system.history && system.published[s].version < |system.history[s]|
         && best[s] == system.history[s][system.published[s].version]
  }

  /**
   At any moment of any run, a directory scan finds for every session that ever published exactly its newest
   published total, one past total of that session, whatever files failed writes, failed removals and crashes left.
   */
  lemma {:induction false} ScanFindsLastPublished(system: System, best: map<string, Totals>)
    requires Inv(system) && IsBest(system.disk, best)
    ensures IsLastPublished(system, best)
  {
    forall s | s in best
      ensures s in system.published && s in system.history && system.published[s].version < |system.history[s]|
      ensures best[s] == system.history[s][system.published[s].version]
    {
      assert SessionInv(system, s);
      var g :| IsNewest(system.disk, s, g) && best[s] == system.disk[(s, g)];
      assert s in system.history;
      assert g == system.published[s].generation;
    }
    forall s | s in system.published ensures s in best {
      assert SessionInv(system, s);
      assert (s, system.published[s].generation) in system.disk;
    }
  }

  /** Loaded sums never exceed what was recorded. */
  lemma {:induction false} LoadedIsLowerBound(system: System, best: map<string, Totals>, s: string)
    requires Inv(system) && IsBest(system.disk, best) && s in best
    ensures s in system.history && |system.history[s]| > 0
    ensures AtMost(best[s], system.history[s][|system.history[s]| - 1])
  {
    ScanFindsLastPublished(system, best);
    assert SessionInv(system, s);
  }

  // ----- A flush without interruption -----

  ghost predicate NotFrom(events: seq<Event>, s: string) {
    forall i :: 0 <= i < |events| ==> events[i].session != s
  }

  lemma {:induction false} SameTwice(a: System, b: System, c: System, s: string)
    requires SameFor(a, b, s) && SameFor(b, c, s)
    ensures SameFor(a, c, s)
  {
  }

  lemma {:induction false} OtherRunsAreUntouched(system: System, events: seq<Event>, s: string)
    requires NotFrom(events, s)
    ensures SameFor(system, Run(system, events), s)
    decreases |events|
  {
    if |events| > 0 {
      OthersAreUntouched(system, events[0], s);
      assert NotFrom(events[1..], s) by {
        assert forall i :: 0 <= i < |events[1..]| ==> events[1..][i] == events[i + 1];
      }
      OtherRunsAreUntouched(Step(system, events[0]), events[1..], s);
      SameTwice(system, Step(system, events[0]), Run(system, events), s);
    }
  }

  /** The newest publication of the session is all it has recorded. */
  ghost predicate CaughtUp(system: System, s: string) {
    && s in system.stores && s in system.published && s in system.history
    && system.published[s].version == |system.history[s]| - 1
  }

  /**
   A flush during which its session records nothing captures everything recorded so far, whatever other sessions do
   between its steps.
   */
  lemma {:induction false} QuietFlushCapturesEverything(system: System, s: string, during: seq<Event>, after: seq<Event>)
    requires Inv(system) && s in system.stores && system.stores[s].phase.Idle? && system.stores[s].version > 0
    requires NotFrom(during, s) && NotFrom(after, s)
    ensures var copied := Run(Step(system, BeginFlush(s)), during);
            var published := Run(Step(copied, Publish(s, true)), after);
            CaughtUp(Step(published, Commit(s)), s)
  {
    hide Run;
    var begun := Step(system, BeginFlush(s));
    var copied := Run(begun, during);
    var written := Step(copied, Publish(s, true));
    var published := Run(written, after);
    OtherRunsAreUntouched(begun, during, s);
    OtherRunsAreUntouched(written, after, s);
    assert SessionInv(system, s);
    StepKeepsInv(system, BeginFlush(s));
    RunKeepsInv(begun, during);
    assert SessionInv(copied, s);
  }

  // ----- What is left on disk -----

  ghost predicate RemovalsSucceed(events: seq<Event>) {
    forall i :: 0 <= i < |events| && events[i].RemoveOld? ==> events[i].ok
  }

  /** A running session has its newest file only, and until it has removed it the one before. */
  ghost predicate IsTidy(system: System, s: string) {
    s in system.stores ==>
      var newest := if s in system.published then system.published[s].generation else 0;
      forall g :: (s, g) in system.disk ==>
        g == newest || ((system.stores[s].phase.Committing? || system.stores[s].phase.Removing?) && g == newest - 1)
  }

  lemma {:induction false} StepKeepsTidy(system: System, event: Event, s: string)
    requires Inv(system) && IsTidy(system, s) && (event.RemoveOld? ==> event.ok)
    ensures IsTidy(Step(system, event), s)
  {
    hide Recorded, Records, Growing, AtMost, Inv;
    assert SessionInv(system, s) by {
      assert Inv(system);
      InvHolds(system, s);
    }
    if event.session != s {
      OthersAreUntouched(system, event, s);
      assert SameFor(system, Step(system, event), s);
      hide Step;
    }
  }

  lemma {:induction false} InvHolds(system: System, s: string)
    requires Inv(system)
    ensures SessionInv(system, s)
  {
  }

  lemma {:induction false} RunKeepsTidy(system: System, events: seq<Event>, s: string)
    requires Inv(system) && IsTidy(system, s) && RemovalsSucceed(events)
    ensures IsTidy(Run(system, events), s)
    decreases |events|
  {
    hide IsTidy;
    if |events| > 0 {
      StepKeepsTidy(system, events[0], s);
      StepKeepsInv(system, events[0]);
      assert forall i :: 0 <= i < |events[1..]| ==> events[1..][i] == events[i + 1];
      RunKeepsTidy(Step(system, events[0]), events[1..], s);
    }
  }

  /** When all removals succeed, a running session between flushes has exactly one file, its newest publication, or none. */
  lemma {:induction false} OneFileAtRest(events: seq<Event>, s: string, g: nat)
    requires RemovalsSucceed(events)
    ensures var system := Run(EMPTY, events);
            s in system.stores && system.stores[s].phase.Idle? ==>
              ((s, g) in system.disk <==> s in system.published && g == system.published[s].generation)
  {
    EveryRunIsSound(events);
    assert SessionInv(Run(EMPTY, events), s);
    RunKeepsTidy(EMPTY, events, s);
  }

  // ----- The recorder of one session -----

  /**
   The store of one session among others: its methods are the steps above, on the part of the system that is the
   session's own.  `others` is everything else.
   */
  class SessionStore {
    const session: string
    var current: Totals
    var version: nat
    var flushedVersion: nat
    var generation: nat
    var phase: Phase
    var disk: map<(string, nat), Totals>
    ghost var others: map<string, Store>
    ghost var history: map<string, seq<Totals>>
    ghost var published: map<string, Publication>

    ghost function State(): System
      reads this
    {
      System(others[session := Store(current, version, flushedVersion, generation, phase)], disk, history, published)
    }

    ghost predicate Live()
      reads this
    {
      session in history
    }

    method Bump(totals: Totals)
      requires Live()
      modifies this`current, this`version, this`history
      ensures Live() && State() == Counted(old(State()), session, totals)
    {
      current := totals;
      version := version + 1;
      history := history[session := history[session] + [current]];
    }

    method CountCall(tool: string)
      requires Live()
      modifies this`current, this`version, this`history
      ensures Live() && State() == Step(old(State()), RecordCall(session, tool))
    {
      if tool == "" {
        return;
      }
      Bump(Add(current, Call(tool), 1));
    }

    method CountSaving(saving: Saving, saved: int)
      requires Live()
      modifies this`current, this`version, this`history
      ensures Live() && State() == Step(old(State()), RecordTotal(session, saving, saved))
    {
      if saved <= 0 {
        return;
      }
      match saving {
        case Terse => Bump(Add(current, TerseTokens, saved));
        case Dedup => Bump(Add(current, DedupBytes, saved));
        case Write => Bump(Add(current, WriteBytes, saved));
      }
    }

    /** Both totals under one lock. */
    method CountCompaction(considered: int, delivered: int)
      requires Live()
      modifies this`current, this`version, this`history
      ensures Live() && State() == Step(old(State()), RecordCompactBytes(session, considered, delivered))
    {
      if considered <= 0 {
        return;
      }
      var kept := if delivered < 0 then 0 else delivered;
      Bump(Add(Add(current, Considered, considered), Delivered, kept));
    }

    /** Under the lock: the counters are copied, if there is anything new. */
    method CopyCounters()
      requires Live()
      modifies this`phase
      ensures Live() && State() == Step(old(State()), BeginFlush(session))
    {
      if !phase.Idle? || version == flushedVersion {
        return;
      }
      phase := Writing(generation + 1, current, version);
    }

    method WriteSnapshot(ok: bool)
      requires Live()
      modifies this`phase, this`disk, this`published
      ensures Live() && State() == Step(old(State()), Publish(session, ok))
    {
      if !phase.Writing? {
        return;
      }
      var next := phase.next;
      if !ok || (session, next) in disk {
        phase := Idle;
        return;
      }
      disk := disk[(session, next) := phase.copied];
      published := published[session := Publication(next, phase.copiedVersion)];
      phase := Committing(next, phase.copiedVersion);
    }

    /** Under the lock again. */
    method CommitSnapshot()
      requires Live()
      modifies this`phase, this`flushedVersion, this`generation
      ensures Live() && State() == Step(old(State()), Commit(session))
    {
      if !phase.Committing? {
        return;
      }
      if phase.copiedVersion > flushedVersion {
        flushedVersion := phase.copiedVersion;
      }
      generation := phase.next;
      phase := Removing(phase.next);
    }

    method RemoveSuperseded(ok: bool)
      requires Live()
      modifies this`phase, this`disk
      ensures Live() && State() == Step(old(State()), RemoveOld(session, ok))
    {
      if !phase.Removing? {
        return;
      }
      if ok && phase.next > 1 {
        disk := disk - {(session, phase.next - 1)};
      }
      phase := Idle;
    }

    /** The flush, up to the pruning: one new generation, published whole or not at all. */
    method Flush(writeOk: bool, removeOk: bool)
      requires Live()
      modifies this
      ensures Live()
      ensures State() == Run(old(State()), [BeginFlush(session), Publish(session, writeOk), Commit(session), RemoveOld(session, removeOk)])
    {
      hide Step, Run;
      FourSteps(State(), BeginFlush(session), Publish(session, writeOk), Commit(session), RemoveOld(session, removeOk));
      CopyCounters();
      WriteSnapshot(writeOk);
      CommitSnapshot();
      RemoveSuperseded(removeOk);
    }
  }

  lemma {:induction false} OneMoreStep(system: System, event: Event, rest: seq<Event>)
    ensures Run(system, [event] + rest) == Run(Step(system, event), rest) && Run(system, []) == system
  {
    assert ([event] + rest)[1..] == rest;
  }

  lemma {:induction false} FourSteps(system: System, a: Event, b: Event, c: Event, d: Event)
    ensures Run(system, [a, b, c, d]) == Step(Step(Step(Step(system, a), b), c), d)
  {
    hide Step, Run;
    var s1 := Step(system, a);
    var s2 := Step(s1, b);
    var s3 := Step(s2, c);
    assert [a, b, c, d] == [a] + [b, c, d] && [b, c, d] == [b] + [c, d] && [c, d] == [c] + [d] && [d] == [d] + [];
    OneMoreStep(system, a, [b, c, d]);
    OneMoreStep(s1, b, [c, d]);
    OneMoreStep(s2, c, [d]);
    OneMoreStep(s3, d, []);
    OneMoreStep(Step(s3, d), d, []);
  }
}
