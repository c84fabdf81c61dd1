/**
 The persisted event record. `Event` is declared outside eventsystem.go; this
 module gives it exactly the fields eventsystem.go reads and writes, and the
 lifecycle those fields encode.
 */
module Events {
  import opened Optional

  /** A Go `error` value; the dispatch core only stores and compares it. */
  datatype Error = Error(message: string)

  /** A reading of `time.Now()`; only "unset" (`None`) versus "set" matters to the core. */
  type Time = nat

  datatype Event<P> = Event(
    id: string,
    name: string,
    payload: P,
    publishedAt: Option<Time>,
    startedAt: Option<Time>,
    finishedAt: Option<Time>,
    error: Option<Error>)

  /** The four mutually exclusive states a record can be in. */
  datatype Stage = Pending | Running | Finished | Errored

  /**
   Lifecycle fields that agree with each other: the record was published, a
   finished or errored record was started first, and finished and errored
   exclude each other.
   */
  predicate WellFormed<P>(e: Event<P>) {
    && e.publishedAt.Some?
    && (e.finishedAt.Some? ==> e.startedAt.Some?)
    && (e.error.Some? ==> e.startedAt.Some?)
    && !(e.finishedAt.Some? && e.error.Some?)
  }

  /** The stage a record's fields encode; an error takes precedence. */
  function StageOf<P>(e: Event<P>): Stage {
    if e.error.Some? then Errored
    else if e.finishedAt.Some? then Finished
    else if e.startedAt.Some? then Running
    else Pending
  }

  /** Two records denote the same published event: the fields no step of the core rewrites agree. */
  ghost predicate SameEvent<P>(a: Event<P>, b: Event<P>) {
    a.id == b.id && a.name == b.name && a.payload == b.payload && a.publishedAt == b.publishedAt
  }
}
