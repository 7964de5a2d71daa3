/**
 The store of exact output: a bounded number of records, each readable until it expires.

 Compression and the file system under it are taken to return what was written.
 */
module SpillStore {
  import opened Text
  import opened LineRanges

  const MAXIMUM_SPILLS: nat := 64
  const MAXIMUM_BYTES: nat := 64 * 1024 * 1024

  /** One hour, in seconds. */
  const DEFAULT_TTL: int := 3600

  datatype Record = Record(data: string, created: int, expires: int)

  type Records = map<string, Record>

  datatype Error = TooLarge | LimitReached | UnknownOrExpired | BadRange

  function Live(records: Records, now: int): Records {
    map id | id in records && now <= records[id].expires :: records[id]
  }

  /** What reading an id gives; the record may be gone already or still be there, expired. */
  function Found(records: Records, id: string, now: int): Result<string, Error> {
    if id in records && now <= records[id].expires then Ok(records[id].data) else Err(UnknownOrExpired)
  }

  class Store {
    const ttl: int
    var records: Records

    ghost predicate Valid()
      reads this
    {
      |records| <= MAXIMUM_SPILLS && ttl > 0
    }

    constructor (ttl: int)
      ensures Valid() && records == map[] && this.ttl == if ttl <= 0 then 3600 else ttl
    {
      this.ttl := if ttl <= 0 then DEFAULT_TTL else ttl;
      records := map[];
    }

    method Reap(now: int)
      modifies this
      ensures records == Live(old(records), now) && |records| <= old(|records|)
    {
      var rest := records.Keys;
      ghost var before := records;
      while rest != {}
        invariant rest <= before.Keys
        invariant records == map id | id in before && (id in rest || now <= before[id].expires) :: before[id]
        decreases rest
      {
        var id :| id in rest;
        if now > records[id].expires {
          records := records - {id};
        }
        rest := rest - {id};
      }
      assert records.Keys <= before.Keys;
      SubsetIsSmaller(records.Keys, before.Keys);
    }

    /** Before the bytes are written: is there room? */
    method Admit(size: nat, now: int) returns (error: Option<Error>)
      requires Valid()
      modifies this
      ensures Valid()
      ensures error == if size > MAXIMUM_BYTES then Some(TooLarge)
                       else if |Live(old(records), now)| >= MAXIMUM_SPILLS then Some(LimitReached) else None
      ensures records == if size > MAXIMUM_BYTES then old(records) else Live(old(records), now)
    {
      if size > MAXIMUM_BYTES {
        return Some(TooLarge);
      }
      Reap(now);
      return if |records| >= MAXIMUM_SPILLS then Some(LimitReached) else None;
    }

    /** After the bytes are written: the room is checked again, others may have been quicker. */
    method Publish(id: string, data: string, now: int) returns (error: Option<Error>)
      requires Valid() && id !in records
      modifies this
      ensures Valid()
      ensures var live := Live(old(records), now);
              if |live| >= MAXIMUM_SPILLS then error == Some(LimitReached) && records == live
              else error == None && records == live[id := Record(data, now, now + ttl)]
    {
      Reap(now);
      if |records| >= MAXIMUM_SPILLS {
        return Some(LimitReached);
      }
      assert (records[id := Record(data, now, now + ttl)]).Keys == records.Keys + {id};
      records := records[id := Record(data, now, now + ttl)];
      return None;
    }

    /** One call that nothing comes between; id is new. */
    method Put(id: string, data: string, now: int) returns (error: Option<Error>)
      requires Valid() && id !in records
      modifies this
      ensures Valid()
      ensures error.None? ==> Found(records, id, now) == Ok(data)
      ensures error == if |data| > 67108864 then Some(TooLarge)
                       else if |Live(old(records), now)| >= 64 then Some(LimitReached) else None
      ensures forall other, later :: other != id && now <= later ==> Found(records, other, later) == Found(old(records), other, later)
      ensures error.None? ==> forall later ::
                Found(records, id, later) == if later <= now + ttl then Ok(data) else Err(UnknownOrExpired)
    {
      error := Admit(|data|, now);
      if error.Some? {
        return;
      }
      LiveTwice(old(records), now);
      error := Publish(id, data, now);
    }

    method Read(id: string, ranges: string, now: int) returns (r: Result<string, Error>)
      ensures r == var found := Found(records, id, now);
                   if found.Err? || ranges == "" then found
                   else var lines := Selection(found.value, ranges); if lines.Ok? then Ok(lines.value) else Err(BadRange)
    {
      if id !in records || now > records[id].expires {
        return Err(UnknownOrExpired);
      }
      var data := records[id].data;
      if ranges == "" {
        return Ok(data);
      }
      var lines := SelectRanges(data, ranges);
      return if lines.Ok? then Ok(lines.value) else Err(BadRange);
    }
  }

  lemma {:induction false} LiveTwice(records: Records, now: int)
    ensures Live(Live(records, now), now) == Live(records, now)
  {
  }

  // ----- Several callers at once -----

  /** The steps under the lock; a caller's Admit and Publish may have any steps of others between them. */
  datatype Step =
    | AdmitStep(size: nat, now: int)
    | PublishStep(id: string, data: string, now: int)

  function Done(records: Records, step: Step, ttl: int): Records {
    match step
    case AdmitStep(size, now) => if size > MAXIMUM_BYTES then records else Live(records, now)
    case PublishStep(id, data, now) =>
      var live := Live(records, now);
      if |live| >= MAXIMUM_SPILLS || id in records then live else live[id := Record(data, now, now + ttl)]
  }

  function Run(records: Records, steps: seq<Step>, ttl: int): Records
    decreases |steps|
  {
    if |steps| == 0 then records else Run(Done(records, steps[0], ttl), steps[1..], ttl)
  }

  function TimeOf(step: Step): int {
    match step
    case AdmitStep(_, now) => now
    case PublishStep(_, _, now) => now
  }

  /** No step is later than the time, and none publishes the id again. */
  predicate Before(steps: seq<Step>, id: string, time: int) {
    forall i :: 0 <= i < |steps| ==> TimeOf(steps[i]) <= time && (steps[i].PublishStep? ==> steps[i].id != id)
  }

  lemma {:induction false} StepKeepsBound(records: Records, step: Step, ttl: int)
    requires |records| <= MAXIMUM_SPILLS
    ensures |Done(records, step, ttl)| <= MAXIMUM_SPILLS
  {
    var live := Live(records, TimeOf(step));
    assert live.Keys <= records.Keys;
    SubsetIsSmaller(live.Keys, records.Keys);
    if step.PublishStep? && |live| < MAXIMUM_SPILLS {
      var added := live[step.id := Record(step.data, step.now, step.now + ttl)];
      assert added.Keys == live.Keys + {step.id};
      SubsetIsSmaller(added.Keys, live.Keys + {step.id});
    }
  }

  /** However the calls interleave, the store never holds more than its maximum. */
  lemma {:induction false} NeverOverfull(records: Records, steps: seq<Step>, ttl: int)
    requires |records| <= 64
    ensures |Run(records, steps, ttl)| <= 64
    decreases |steps|
  {
    if |steps| > 0 {
      StepKeepsBound(records, steps[0], ttl);
      NeverOverfull(Done(records, steps[0], ttl), steps[1..], ttl);
    }
  }

  /** And what was published reads back as it was until it expires. */
  lemma {:induction false} PublishedStaysReadable(records: Records, steps: seq<Step>, ttl: int, id: string, time: int)
    requires id in records && time <= records[id].expires && Before(steps, id, time)
    ensures Found(Run(records, steps, ttl), id, time) == Ok(records[id].data)
    decreases |steps|
  {
    if |steps| > 0 {
      var next := Done(records, steps[0], ttl);
      assert TimeOf(steps[0]) <= time;
      assert id in next && next[id] == records[id];
      assert Before(steps[1..], id, time) by {
        assert forall i :: 0 <= i < |steps[1..]| ==> steps[1..][i] == steps[i + 1];
      }
      PublishedStaysReadable(next, steps[1..], ttl, id, time);
    }
  }
}
