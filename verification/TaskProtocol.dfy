/**
 Asynchronous tasks as a protocol: a table under a lock, a goroutine for every task, and callers who start, look at,
 cancel and collect tasks, in any order of steps.
 */
module TaskProtocol {
  import opened Text

  const MAXIMUM: nat := 64

  /** One hour, in seconds. */
  const TTL: int := 3600

  datatype Status = Queued | Running | Cancelling | Done | Failed | Cancelled

  predicate Terminal(status: Status) {
    status.Done? || status.Failed? || status.Cancelled?
  }

  /** Where the goroutine of a task is. */
  datatype Phase = Spawned | Executing | Finished

  datatype Task = Task(status: Status, phase: Phase, contextCancelled: bool, expires: int)

  /**
   Every task ever started, by identifier; those still in the table; and how often the result of a task that is done
   was handed out.
   */
  datatype System = System(tasks: map<string, Task>, table: set<string>, handedOut: map<string, nat>)

  const EMPTY := System(map[], {}, map[])

  datatype Event =
    | Start(id: string, now: int)
    | BeginRun(id: string)
    | FinishRun(id: string, ok: bool, now: int)
    | GetStatus(id: string, now: int)
    | Collect(id: string, now: int)
    | Cancel(id: string)

  // ----- Steps -----

  predicate Reapable(system: System, id: string, now: int) {
    id in system.tasks && now > system.tasks[id].expires && Terminal(system.tasks[id].status)
  }

  function Reaped(system: System, now: int): System {
    system.(table := set id | id in system.table && !Reapable(system, id, now))
  }

  function Times(system: System, id: string): nat {
    if id in system.handedOut then system.handedOut[id] else 0
  }

  /** Takes effect only on a task of the table that has not been cancelled or finished. */
  predicate CancelTakes(system: System, id: string) {
    id in system.table && id in system.tasks && (system.tasks[id].status.Queued? || system.tasks[id].status.Running?)
  }

  predicate IsExecuting(system: System, id: string) {
    id in system.tasks && system.tasks[id].phase.Executing?
  }

  function Collected(system: System, id: string): System {
    if id !in system.table || id !in system.tasks || !Terminal(system.tasks[id].status) then system
    else if system.tasks[id].status.Done? then
      system.(table := system.table - {id}, handedOut := system.handedOut[id := Times(system, id) + 1])
    else system.(table := system.table - {id})
  }

  function Step(system: System, event: Event): System {
    match event
    case Start(id, now) =>
      var reaped := Reaped(system, now);
      if id in system.tasks || |reaped.table| >= MAXIMUM then reaped
      else reaped.(tasks := reaped.tasks[id := Task(Queued, Spawned, false, now + TTL)], table := reaped.table + {id})
    case BeginRun(id) =>
      if id !in system.tasks || !system.tasks[id].phase.Spawned? then system
      else system.(tasks := system.tasks[id := system.tasks[id].(status := Running, phase := Executing)])
    case FinishRun(id, ok, now) =>
      if !IsExecuting(system, id) then system
      else
        var status := if system.tasks[id].contextCancelled then Cancelled else if ok then Done else Failed;
        system.(tasks := system.tasks[id := system.tasks[id].(status := status, phase := Finished, expires := now + TTL)])
    case GetStatus(_, now) => Reaped(system, now)
    case Collect(id, now) => Collected(Reaped(system, now), id)
    case Cancel(id) =>
      if !CancelTakes(system, id) then system
      else system.(tasks := system.tasks[id := system.tasks[id].(status := Cancelling, contextCancelled := true)])
  }

  function Run(events: seq<Event>): System {
    if |events| == 0 then EMPTY else Step(Run(events[..|events| - 1]), events[|events| - 1])
  }

  // ----- What every step keeps -----

  ghost predicate TaskInv(system: System, id: string) {
    && (id in system.table ==> id in system.tasks)
    && (id in system.handedOut ==> id in system.tasks)
    && Times(system, id) <= 1
    && (Times(system, id) == 1 ==> id !in system.table && id in system.tasks && system.tasks[id].status.Done?)
    && (id in system.tasks ==>
          var task := system.tasks[id];
          && (task.phase.Finished? <==> Terminal(task.status))
          && (!Terminal(task.status) ==> id in system.table)
          && (task.status.Cancelled? ==> task.contextCancelled)
          && (task.status.Done? || task.status.Failed? ==> !task.contextCancelled)
          && (task.status.Cancelling? ==> task.contextCancelled)
          && (task.status.Running? ==> task.phase.Executing?))
  }

  ghost predicate Inv(system: System) {
    |system.table| <= MAXIMUM && forall id :: TaskInv(system, id)
  }

  lemma {:induction false} StepKeepsTask(system: System, event: Event, id: string)
    requires TaskInv(system, id) && TaskInv(system, event.id)
    ensures TaskInv(Step(system, event), id)
  {
  }

  lemma {:induction false} StepKeepsBound(system: System, event: Event)
    requires |system.table| <= MAXIMUM
    ensures |Step(system, event).table| <= MAXIMUM
  {
    var table := Step(system, event).table;
    match event
    case Start(id, now) =>
      SubsetIsSmaller(Reaped(system, now).table, system.table);
      SubsetIsSmaller(table, Reaped(system, now).table + {id});
    case _ =>
      SubsetIsSmaller(table, system.table);
  }

  /** At no moment of any run is the table over its maximum, or an unfinished task outside it. */
  lemma {:induction false} EveryRunIsSound(events: seq<Event>)
    ensures Inv(Run(events)) && |Run(events).table| <= 64
  {
    if |events| > 0 {
      var before, event := Run(events[..|events| - 1]), events[|events| - 1];
      EveryRunIsSound(events[..|events| - 1]);
      StepKeepsBound(before, event);
      forall id ensures TaskInv(Step(before, event), id) {
        StepKeepsTask(before, event, id);
      }
    }
  }

  /** A task leaves the table only in a terminal status. */
  lemma {:induction false} OnlyTerminalTasksLeave(system: System, event: Event, id: string)
    requires Inv(system) && id in system.table && id !in Step(system, event).table
    ensures id in system.tasks && Terminal(system.tasks[id].status)
  {
    assert TaskInv(system, id);
  }

  /** A terminal status never changes again. */
  lemma {:induction false} TerminalIsFinal(system: System, event: Event, id: string)
    requires Inv(system) && id in system.tasks && Terminal(system.tasks[id].status)
    ensures id in Step(system, event).tasks && Step(system, event).tasks[id].status == system.tasks[id].status
  {
    assert TaskInv(system, id);
    hide Reapable, TaskInv, Inv;
  }

  /** The result of a task that is done is handed out at most once in a run. */
  lemma {:induction false} ResultsAreHandedOutOnce(events: seq<Event>, id: string)
    ensures Times(Run(events), id) <= 1
  {
    EveryRunIsSound(events);
    assert TaskInv(Run(events), id);
  }

  /** Collecting a task hands out its result if it is done and not expired, and leaves it in the table unless it has ended. */
  lemma {:induction false} CollectingHandsOut(system: System, id: string, now: int)
    requires Inv(system) && id in system.table
    ensures id in system.tasks
    ensures var task, collected := system.tasks[id], Step(system, Collect(id, now));
            && collected.tasks == system.tasks
            && collected.handedOut == (if task.status == Done && now <= task.expires then system.handedOut[id := 1] else system.handedOut)
            && (id in collected.table <==> task.status != Done && task.status != Failed && task.status != Cancelled)
  {
    assert TaskInv(system, id);
  }

  /** A new task is queued for up to an hour if fewer than 64 are in the table that cannot be reaped. */
  lemma {:induction false} StartsUnlessFull(system: System, id: string, now: int)
    requires Inv(system) && id !in system.tasks
    ensures forall other :: other in system.table ==> other in system.tasks
    ensures var rest := set other | other in system.table && (now <= system.tasks[other].expires || !Terminal(system.tasks[other].status));
            var started := Step(system, Start(id, now));
            if |rest| < 64 then
              && started.tasks == system.tasks[id := Task(Queued, Spawned, false, now + 3600)]
              && started.table == rest + {id}
            else started.tasks == system.tasks && started.table == rest
  {
    forall other | other in system.table ensures other in system.tasks {
      assert TaskInv(system, other);
    }
    var rest := set other | other in system.table && (now <= system.tasks[other].expires || !Terminal(system.tasks[other].status));
    assert Reaped(system, now).table == rest by {
      assert forall other :: other in Reaped(system, now).table <==> other in rest;
    }
  }

  /** A task that ended is kept for an hour, unless it is collected, and goes with the next look at the table after that. */
  lemma {:induction false} EndedTasksStayAnHour(system: System, id: string, ok: bool, now: int, other: string, later: int)
    requires Inv(system) && IsExecuting(system, id)
    ensures id in system.table
    ensures var ended := Step(system, FinishRun(id, ok, now));
            id in Step(ended, GetStatus(other, later)).table <==> later <= now + 3600
  {
    assert TaskInv(system, id);
  }

  /** An unfinished task is never removed, however late it is. */
  lemma {:induction false} UnfinishedTasksStay(system: System, event: Event, id: string)
    requires Inv(system) && id in system.table && id in system.tasks && !Terminal(system.tasks[id].status)
    ensures id in Step(system, event).table
  {
    assert TaskInv(system, id);
  }

  // ----- When a task is done -----

  /** Event k of the run is a cancellation of the task that takes effect. */
  predicate CancelledAt(events: seq<Event>, k: nat, id: string) {
    k < |events| && events[k] == Cancel(id) && CancelTakes(Run(events[..k]), id)
  }

  /** Event k ends the task's run with success. */
  predicate SucceededAt(events: seq<Event>, k: nat, id: string) {
    k < |events| && events[k].FinishRun? && events[k].id == id && events[k].ok && IsExecuting(Run(events[..k]), id)
  }

  ghost predicate EverCancelled(events: seq<Event>, id: string) {
    exists k :: CancelledAt(events, k, id)
  }

  ghost predicate EverSucceeded(events: seq<Event>, id: string) {
    exists k :: SucceededAt(events, k, id)
  }

  lemma {:induction false} LastEvent(events: seq<Event>, id: string)
    requires |events| > 0
    ensures var front, n := events[..|events| - 1], |events| - 1;
            && (EverCancelled(events, id) <==> EverCancelled(front, id) || CancelledAt(events, n, id))
            && (EverSucceeded(events, id) <==> EverSucceeded(front, id) || SucceededAt(events, n, id))
  {
    hide Run, CancelTakes, IsExecuting;
    var front, n := events[..|events| - 1], |events| - 1;
    forall k | 0 <= k < n
      ensures CancelledAt(events, k, id) <==> CancelledAt(front, k, id)
      ensures SucceededAt(events, k, id) <==> SucceededAt(front, k, id)
    {
      assert events[..k] == front[..k];
    }
    if EverCancelled(front, id) {
      var k :| CancelledAt(front, k, id);
      assert CancelledAt(events, k, id);
    }
    if EverSucceeded(front, id) {
      var k :| SucceededAt(front, k, id);
      assert SucceededAt(events, k, id);
    }
  }

  /** The flags of a task tell its history. */
  ghost predicate Tells(system: System, events: seq<Event>, id: string) {
    if id !in system.tasks then !EverCancelled(events, id) && !EverSucceeded(events, id)
    else
      && (system.tasks[id].contextCancelled <==> EverCancelled(events, id))
      && (EverSucceeded(events, id) ==> system.tasks[id].phase.Finished?)
      && (system.tasks[id].status.Done? <==> EverSucceeded(events, id) && !EverCancelled(events, id))
  }

  lemma {:induction false} TellsMore(system: System, event: Event, events: seq<Event>, more: seq<Event>, id: string)
    requires TaskInv(system, id) && Tells(system, events, id)
    requires EverCancelled(more, id) <==> EverCancelled(events, id) || (event == Cancel(id) && CancelTakes(system, id))
    requires EverSucceeded(more, id)
        <==> EverSucceeded(events, id) || (event.FinishRun? && event.id == id && event.ok && IsExecuting(system, id))
    ensures Tells(Step(system, event), more, id)
  {
    hide EverCancelled, EverSucceeded;
  }

  lemma {:induction false} EveryRunTells(events: seq<Event>, id: string)
    ensures Tells(Run(events), events, id)
  {
    if |events| > 0 {
      var n := |events| - 1;
      var front := events[..n];
      EveryRunTells(front, id);
      EveryRunIsSound(front);
      assert TaskInv(Run(front), id);
      LastEvent(events, id);
      TellsMore(Run(front), events[n], front, events, id);
    }
  }

  /** A task is done exactly when its run succeeded and no cancellation took effect before that. */
  lemma {:induction false} DoneExactly(events: seq<Event>, id: string)
    ensures id in Run(events).tasks && Run(events).tasks[id].status.Done?
       <==> EverSucceeded(events, id) && !EverCancelled(events, id)
  {
    EveryRunTells(events, id);
  }

  // ----- How a cancellation ends -----

  /**
   What may come after cancelling: only the goroutine's first step, if it had not been taken, shows the task as running
   again; the end of a run that is going on makes it cancelled; nothing else changes its status.
   */
  lemma {:induction false} AfterCancelling(system: System, event: Event, id: string)
    requires Inv(system) && id in system.tasks && system.tasks[id].status.Cancelling?
    ensures id in Step(system, event).tasks
    ensures var status := Step(system, event).tasks[id].status;
            && (status == Running <==> event == BeginRun(id) && system.tasks[id].phase.Spawned?)
            && (status == Cancelled <==> event.FinishRun? && event.id == id && system.tasks[id].phase.Executing?)
            && (status == Running || status == Cancelled || status == Cancelling)
  {
    assert TaskInv(system, id);
    hide Reapable, TaskInv, Inv;
  }

  /** Event k is a cancellation that takes effect while the goroutine executes, or while it does not. */
  predicate CancelledAtPhase(events: seq<Event>, k: nat, id: string, executing: bool) {
    CancelledAt(events, k, id) && IsExecuting(Run(events[..k]), id) == executing
  }

  ghost predicate CancelledWhileExecuting(events: seq<Event>, id: string) {
    exists k :: CancelledAtPhase(events, k, id, true)
  }

  ghost predicate CancelledBeforeBegin(events: seq<Event>, id: string) {
    exists k :: CancelledAtPhase(events, k, id, false)
  }

  lemma {:induction false} LastCancellation(events: seq<Event>, id: string)
    requires |events| > 0
    ensures var front, n := events[..|events| - 1], |events| - 1;
            && (CancelledWhileExecuting(events, id) <==> CancelledWhileExecuting(front, id) || CancelledAtPhase(events, n, id, true))
            && (CancelledBeforeBegin(events, id) <==> CancelledBeforeBegin(front, id) || CancelledAtPhase(events, n, id, false))
  {
    hide Run, CancelTakes, IsExecuting;
    var front, n := events[..|events| - 1], |events| - 1;
    forall k, executing | 0 <= k < n
      ensures CancelledAtPhase(events, k, id, executing) <==> CancelledAtPhase(front, k, id, executing)
    {
      assert events[..k] == front[..k];
    }
    if CancelledWhileExecuting(front, id) {
      var k :| CancelledAtPhase(front, k, id, true);
      assert CancelledAtPhase(events, k, id, true);
    }
    if CancelledBeforeBegin(front, id) {
      var k :| CancelledAtPhase(front, k, id, false);
      assert CancelledAtPhase(events, k, id, false);
    }
  }

  /** Where a task stands that was cancelled, told from when that was. */
  ghost predicate CancelTells(system: System, events: seq<Event>, id: string) {
    && (CancelledWhileExecuting(events, id) || CancelledBeforeBegin(events, id) ==> id in system.tasks)
    && (CancelledWhileExecuting(events, id) ==>
          !system.tasks[id].phase.Spawned? && (system.tasks[id].status.Cancelling? || system.tasks[id].status.Cancelled?))
    && (id in system.tasks ==>
          && (system.tasks[id].contextCancelled <==> CancelledWhileExecuting(events, id) || CancelledBeforeBegin(events, id))
          && (IsExecuting(system, id) && !CancelledWhileExecuting(events, id) ==> system.tasks[id].status.Running?))
  }

  lemma {:induction false} CancelTellsMore(system: System, event: Event, events: seq<Event>, more: seq<Event>, id: string)
    requires TaskInv(system, id) && CancelTells(system, events, id)
    requires var takes := event == Cancel(id) && CancelTakes(system, id);
             && (CancelledWhileExecuting(more, id) <==> CancelledWhileExecuting(events, id) || (takes && IsExecuting(system, id)))
             && (CancelledBeforeBegin(more, id) <==> CancelledBeforeBegin(events, id) || (takes && !IsExecuting(system, id)))
    ensures CancelTells(Step(system, event), more, id)
  {
    hide CancelledWhileExecuting, CancelledBeforeBegin;
  }

  lemma {:induction false} EveryRunCancelTells(events: seq<Event>, id: string)
    ensures CancelTells(Run(events), events, id)
  {
    if |events| > 0 {
      var n := |events| - 1;
      var front := events[..n];
      EveryRunCancelTells(front, id);
      EveryRunIsSound(front);
      assert TaskInv(Run(front), id);
      LastCancellation(events, id);
      CancelTellsMore(Run(front), events[n], front, events, id);
    }
  }

  /**
   Over any run: a task that was executing when a cancellation took effect is never shown as running again; a cancelled
   task is shown as running exactly when it executes now and every cancellation took effect before it did.
   */
  lemma {:induction false} CancellingAnExecutingTaskIsFinal(events: seq<Event>, id: string)
    ensures CancelledWhileExecuting(events, id) ==>
              id in Run(events).tasks && (Run(events).tasks[id].status.Cancelling? || Run(events).tasks[id].status.Cancelled?)
    ensures id in Run(events).tasks && Run(events).tasks[id].status.Running? && Run(events).tasks[id].contextCancelled
       <==> IsExecuting(Run(events), id) && CancelledBeforeBegin(events, id) && !CancelledWhileExecuting(events, id)
  {
    EveryRunCancelTells(events, id);
    EveryRunIsSound(events);
    assert TaskInv(Run(events), id);
  }

  /** The case there is: a task cancelled before its goroutine began is shown as running again. */
  lemma {:induction false} CancellingIsNotFinal(id: string)
    ensures Run([Start(id, 0), Cancel(id)]).tasks.Keys == {id}
    ensures Run([Start(id, 0), Cancel(id)]).tasks[id].status == Cancelling
    ensures Run([Start(id, 0), Cancel(id), BeginRun(id)]).tasks.Keys == {id}
    ensures Run([Start(id, 0), Cancel(id), BeginRun(id)]).tasks[id].status == Running
  {
    hide Run, Step;
    var a, b, c := Start(id, 0), Cancel(id), BeginRun(id);
    assert [a] == [] + [a] && [a, b] == [a] + [b] && [a, b, c] == [a, b] + [c];
    RunMore([], a);
    RunMore([a], b);
    RunMore([a, b], c);
    NothingRun();
    ThreeSteps(id);
  }

  lemma {:induction false} NothingRun()
    ensures Run([]) == EMPTY
  {
  }

  lemma {:induction false} ThreeSteps(id: string)
    ensures var started := Step(EMPTY, Start(id, 0));
            var cancelled := Step(started, Cancel(id));
            var begun := Step(cancelled, BeginRun(id));
            && cancelled.tasks.Keys == {id} && cancelled.tasks[id].status == Cancelling
            && begun.tasks.Keys == {id} && begun.tasks[id].status == Running
  {
    assert Reaped(EMPTY, 0) == EMPTY;
  }

  lemma {:induction false} RunMore(events: seq<Event>, event: Event)
    ensures Run(events + [event]) == Step(Run(events), event) && Run([]) == EMPTY
  {
    assert (events + [event])[..|events|] == events;
  }

  // ----- The manager -----

  /** Each method is one step under the lock. */
  class TaskManager {
    /** Every task started; its goroutine holds on to it after it left the table. */
    var entries: map<string, Task>
    var table: set<string>
    ghost var handedOut: map<string, nat>

    ghost function State(): System
      reads this
    {
      System(entries, table, handedOut)
    }

    constructor ()
      ensures State() == EMPTY
    {
      entries, table, handedOut := map[], {}, map[];
    }

    method Reap(now: int)
      modifies this`table
      ensures State() == Reaped(old(State()), now)
    {
      ghost var before := State();
      var rest := table;
      while rest != {}
        invariant rest <= before.table
        invariant table == set id | id in before.table && (id in rest || !Reapable(before, id, now))
        decreases rest
      {
        var id :| id in rest;
        if id in entries && now > entries[id].expires && Terminal(entries[id].status) {
          table := table - {id};
        }
        rest := rest - {id};
      }
    }

    /** id is new; false when the table is full. */
    method StartTask(id: string, now: int) returns (started: bool)
      requires id !in entries
      modifies this
      ensures State() == Step(old(State()), Start(id, now))
      ensures started <==> |Reaped(old(State()), now).table| < MAXIMUM
    {
      Reap(now);
      if |table| >= MAXIMUM {
        return false;
      }
      entries := entries[id := Task(Queued, Spawned, false, now + TTL)];
      table := table + {id};
      return true;
    }

    method BeginGoroutine(id: string)
      requires id in entries && entries[id].phase.Spawned?
      modifies this`entries
      ensures State() == Step(old(State()), BeginRun(id))
    {
      entries := entries[id := entries[id].(status := Running, phase := Executing)];
    }

    method FinishGoroutine(id: string, ok: bool, now: int)
      requires id in entries && entries[id].phase.Executing?
      modifies this`entries
      ensures State() == Step(old(State()), FinishRun(id, ok, now))
    {
      var entry := entries[id];
      if entry.contextCancelled {
        entry := entry.(status := Cancelled);
      } else if !ok {
        entry := entry.(status := Failed);
      } else {
        entry := entry.(status := Done);
      }
      entries := entries[id := entry.(phase := Finished, expires := now + TTL)];
    }

    method StatusOf(id: string, now: int) returns (status: Option<Status>)
      modifies this`table
      ensures State() == Step(old(State()), GetStatus(id, now))
      ensures status == if id in table && id in entries then Some(entries[id].status) else None
    {
      Reap(now);
      return if id in table && id in entries then Some(entries[id].status) else None;
    }

    method CollectTask(id: string, now: int) returns (status: Option<Status>, result: bool)
      modifies this
      ensures State() == Step(old(State()), Collect(id, now))
      ensures var reaped := Reaped(old(State()), now);
              && status == (if id in reaped.table && id in entries then Some(entries[id].status) else None)
              && (result <==> status == Some(Done)) && (result <==> Times(State(), id) == Times(old(State()), id) + 1)
    {
      Reap(now);
      if id !in table || id !in entries {
        return None, false;
      }
      status, result := Some(entries[id].status), false;
      if entries[id].status.Done? {
        result := true;
        handedOut := handedOut[id := Times(State(), id) + 1];
        table := table - {id};
      } else if entries[id].status.Failed? || entries[id].status.Cancelled? {
        table := table - {id};
      }
    }

    method CancelTask(id: string) returns (status: Option<Status>)
      modifies this`entries
      ensures State() == Step(old(State()), Cancel(id))
      ensures status == if id in table && id in entries then Some(entries[id].status) else None
    {
      if id !in table || id !in entries {
        return None;
      }
      if entries[id].status.Queued? || entries[id].status.Running? {
        entries := entries[id := entries[id].(status := Cancelling, contextCancelled := true)];
      }
      return Some(entries[id].status);
    }
  }
}
