/**
 The dispatch state machine of eventsystem.go: the handler registry and the
 four operations over it. Every operation is a pure function of the registry
 and of the `World` it observes, returning the trace of its effects.
 */
module Dispatch {
  import opened Optional
  import opened Events
  import opened Effects

  /** A binding of a handler to an event name; `H` stands for the Go `HandlerFunc`. */
  datatype EventHandler<H> = EventHandler(event: string, handler: H)

  /** The registry. The datastore is the `World` each operation is given. */
  datatype EventSystem<H> = EventSystem(handlers: seq<EventHandler<H>>, enableLog: bool)

  /** How an `onPublish` goroutine ends: by returning, or by a run-time panic. */
  datatype Outcome = Returned | Panicked

  datatype Run<P> = Run(trace: seq<Effect<P>>, outcome: Outcome)

  /** What `Publish` returns to its caller, and its effects. */
  datatype Published<P> = Published(err: Option<Error>, trace: seq<Effect<P>>)

  /** The handler scan: the indices called, in order, and the first failure, if any. */
  datatype Scanned = Scanned(invoked: seq<nat>, failure: Option<Error>)

  // ---------------------------------------------------------------------------
  // Reference definitions of the handler scan

  /**
   Handler k is reached by a scan starting at i: it is bound to `name` and
   every handler bound to `name` before it (from i on) succeeded.
   */
  ghost predicate Runs<H>(hs: seq<EventHandler<H>>, i: nat, name: string, handle: nat -> Option<Error>, k: nat) {
    && i <= k < |hs|
    && hs[k].event == name
    && forall j :: i <= j < k && hs[j].event == name ==> handle(j).None?
  }

  /** Every handler bound to `name` from index i on succeeds. */
  ghost predicate AllSucceed<H>(hs: seq<EventHandler<H>>, i: nat, name: string, handle: nat -> Option<Error>) {
    forall k :: i <= k < |hs| && hs[k].event == name ==> handle(k).None?
  }

  ghost predicate Increasing(ks: seq<nat>) {
    forall a, b :: 0 <= a < b < |ks| ==> ks[a] < ks[b]
  }

  // ---------------------------------------------------------------------------
  // Registry

  function NewEventSystem<H>(enableLog: bool): (sys: EventSystem<H>)
    ensures forall name, handle, k :: !Runs(sys.handlers, 0, name, handle, k)
    ensures forall name, handle :: AllSucceed(sys.handlers, 0, name, handle)
  {
    EventSystem([], enableLog)
  }

  /** Appends a binding; names need not be unique and nothing is ever removed. */
  function Register<H>(sys: EventSystem<H>, h: EventHandler<H>): (r: EventSystem<H>)
    ensures |r.handlers| == |sys.handlers| + 1
    ensures r.handlers[..|sys.handlers|] == sys.handlers
    ensures r.handlers[|sys.handlers|] == h
    ensures r.enableLog == sys.enableLog
  {
    sys.(handlers := sys.handlers + [h])
  }

  /**
   The `for _, handler := range e.handlers` loop from index i: calls each
   handler bound to `name` and stops at the first one that fails.
   */
  function Scan<H>(hs: seq<EventHandler<H>>, i: nat, name: string, handle: nat -> Option<Error>): Scanned
    requires i <= |hs|
    decreases |hs| - i
  {
    if i == |hs| then Scanned([], None)
    else if hs[i].event != name then Scan(hs, i + 1, name, handle)
    else if handle(i).Some? then Scanned([i], handle(i))
    else
      var rest := Scan(hs, i + 1, name, handle);
      Scanned([i] + rest.invoked, rest.failure)
  }

  // ---------------------------------------------------------------------------
  // Publish

  /** The record `Publish` builds: empty id, published now, nothing else set. */
  function NewEvent<P>(name: string, payload: P, now: Time): Event<P> {
    Event("", name, payload, Some(now), None, None, None)
  }

  function Publish<P>(name: string, payload: P, w: World<P>): (r: Published<P>)
    ensures r.err == w.save(0)
    ensures SaveCount(r.trace) == 1 && r.trace[0].Save? && r.trace[0].result == w.save(0)
    ensures var e := r.trace[0].record;
      && e.id == "" && e.name == name && e.payload == payload
      && e.publishedAt == Some(w.clock(0))
      && StageOf(e) == Pending && WellFormed(e)
    ensures TriggerCount(r.trace) == (if r.err.None? then 1 else 0)
    ensures Invoked(r.trace) == {}
    ensures FailedSaveIsLast(r.trace)
  {
    var saved := Save(NewEvent(name, payload, w.clock(0)), w.save(0));
    if w.save(0).Some? then Published(w.save(0), [saved])
    else
      assert [saved, Trigger][1..] == [Trigger];
      var tail: seq<Effect<P>> := [Trigger];
      assert SaveCount(tail) == 0 && TriggerCount(tail) == 1;
      Published(None, [saved, Trigger])
  }

  // ---------------------------------------------------------------------------
  // onPublish

  /** `GetEvent` returned a candidate that carries an error: the halt-on-error gate. */
  predicate Blocked<P>(w: World<P>) {
    w.fetch.Found? && w.fetch.event.error.Some?
  }

  /** `GetEvent` returned a candidate that passes the gate. */
  predicate Proceeds<P>(w: World<P>) {
    w.fetch.Found? && w.fetch.event.error.None?
  }

  /** The candidate passes the gate and saving it as started succeeds: handlers run. */
  predicate Starts<P>(w: World<P>) {
    Proceeds(w) && w.save(0).None?
  }

  function InvokeAll<P>(ks: seq<nat>, payload: P): seq<Effect<P>> {
    seq(|ks|, j requires 0 <= j < |ks| => Invoke(ks[j], payload))
  }

  /** `onPublish` past the gate: mark started and save, scan the handlers, save the result. */
  function Process<H, P>(hs: seq<EventHandler<H>>, c: Event<P>, w: World<P>): seq<Effect<P>> {
    var started := c.(startedAt := Some(w.clock(0)));
    if w.save(0).Some? then [Save(started, w.save(0))]
    else
      var s := Scan(hs, 0, c.name, w.handle);
      var final :=
        if s.failure.Some? then started.(error := s.failure)
        else started.(finishedAt := Some(w.clock(1)));
      [Save(started, None)] + InvokeAll(s.invoked, c.payload) + [Save(final, w.save(1))]
  }

  /**
   `onPublish` as written. At the error gate the source formats `err.Error()`
   where `err` is the nil error of the fetch, which is a nil dereference: the
   goroutine panics instead of returning (see `OnPublishIntended`).
   */
  function OnPublish<H, P>(sys: EventSystem<H>, w: World<P>): (r: Run<P>)
    ensures r.outcome == Panicked <==> Blocked(w)
    ensures |r.trace| > 0 <==> Proceeds(w)
    ensures Proceeds(w) ==>
      && r.trace[0].Save?
      && r.trace[0].result == w.save(0)
      && r.trace[0].record == w.fetch.event.(startedAt := Some(w.clock(0)))
    ensures TriggerCount(r.trace) == 0
    ensures FailedSaveIsLast(r.trace)
  {
    match w.fetch
    case FetchFailed(_) => Run([], Returned)
    case NoEvent => Run([], Returned)
    case Found(c) =>
      if c.error.Some? then Run([], Panicked)
      else
        var t := Process(sys.handlers, c, w);
        assert TriggerCount(t) == 0 by { NoTriggerInProcess(sys.handlers, c, w); }
        Run(t, Returned)
  }

  /** `onPublish` as evidently intended: the error gate returns quietly. */
  function OnPublishIntended<H, P>(sys: EventSystem<H>, w: World<P>): (r: Run<P>)
    ensures r.outcome == Returned
    ensures r.trace == OnPublish(sys, w).trace
  {
    match w.fetch
    case FetchFailed(_) => Run([], Returned)
    case NoEvent => Run([], Returned)
    case Found(c) =>
      if c.error.Some? then Run([], Returned)
      else Run(Process(sys.handlers, c, w), Returned)
  }

  /** A trace with no `Trigger` effect counts none. */
  lemma NoTriggerCounted<P>(a: seq<Effect<P>>)
    requires forall p :: 0 <= p < |a| ==> !a[p].Trigger?
    ensures TriggerCount(a) == 0
  {
    if |a| > 0 {
      NoTriggerCounted(a[1..]);
    }
  }

  lemma NoTriggerInProcess<H, P>(hs: seq<EventHandler<H>>, c: Event<P>, w: World<P>)
    ensures TriggerCount(Process(hs, c, w)) == 0
  {
    NoTriggerCounted(Process(hs, c, w));
  }

  // ---------------------------------------------------------------------------
  // Restart

  /**
   Clears the error of an errored candidate and saves it, then triggers
   processing; a failed fetch, or a failed save of the cleared record, ends it
   without a trigger.
   */
  function Restart<P>(w: World<P>): (t: seq<Effect<P>>)
    ensures SaveCount(t) == (if Blocked(w) then 1 else 0)
    ensures forall p :: 0 <= p < |t| && t[p].Save? ==>
      && w.fetch.Found?
      && t[p].record == w.fetch.event.(error := None)
      && t[p].result == w.save(0)
      && (WellFormed(w.fetch.event) ==> WellFormed(t[p].record))
    ensures TriggerCount(t) == (if w.fetch.FetchFailed? || (Blocked(w) && w.save(0).Some?) then 0 else 1)
    ensures forall p, q :: 0 <= p < q < |t| && t[q].Save? ==> !t[p].Trigger?
    ensures Invoked(t) == {}
    ensures FailedSaveIsLast(t)
  {
    match w.fetch
    case FetchFailed(_) => []
    case NoEvent => [Trigger]
    case Found(c) =>
      if c.error.Some? then
        var cleared := c.(error := None);
        if w.save(0).Some? then [Save(cleared, w.save(0))]
        else
          assert [Save(cleared, None), Trigger][1..] == [Trigger];
          var tail: seq<Effect<P>> := [Trigger];
          assert SaveCount(tail) == 0 && TriggerCount(tail) == 1;
          [Save(cleared, None), Trigger]
      else [Trigger]
  }
}
