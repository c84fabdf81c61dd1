/**
 The outside world of one dispatch operation, as oracles, and the effects the
 operation has on it. The datastore, the handlers' bodies and the clock are not
 part of this model; what an operation sees of them is a `World`.
 */
module Effects {
  import opened Optional
  import opened Events

  /** The result of `Datastore.GetEvent`: a failure, no candidate, or the next candidate. */
  datatype Fetch<P> = FetchFailed(err: Error) | NoEvent | Found(event: Event<P>)

  /**
   What one operation observes: the candidate `GetEvent` returns, the result of
   its k-th `SaveEvent` call (counting from 0), the result of running the
   handler registered at index i, and its k-th reading of the clock.
   */
  datatype World<P> = World(
    fetch: Fetch<P>,
    save: nat -> Option<Error>,
    handle: nat -> Option<Error>,
    clock: nat -> Time)

  /**
   One observable step: a `SaveEvent` call with the record passed and the result
   it returned, a handler call (by registration index) with the payload passed,
   or the start of an asynchronous processing attempt (`go e.onPublish()`).
   */
  datatype Effect<P> =
    | Save(record: Event<P>, result: Option<Error>)
    | Invoke(index: nat, payload: P)
    | Trigger

  /** The registration indices of the handlers a trace calls. */
  function Invoked<P>(t: seq<Effect<P>>): set<nat> {
    set p | 0 <= p < |t| && t[p].Invoke? :: t[p].index
  }

  function SaveCount<P>(t: seq<Effect<P>>): nat {
    if |t| == 0 then 0 else (if t[0].Save? then 1 else 0) + SaveCount(t[1..])
  }

  function TriggerCount<P>(t: seq<Effect<P>>): nat {
    if |t| == 0 then 0 else (if t[0].Trigger? then 1 else 0) + TriggerCount(t[1..])
  }

  /** A failed save ends the operation: no effect follows it. */
  predicate FailedSaveIsLast<P>(t: seq<Effect<P>>) {
    forall p :: 0 <= p < |t| && t[p].Save? && t[p].result.Some? ==> p == |t| - 1
  }
}
