/**
 Properties of the dispatch state machine: the handler scan against its
 reference definition, the order of saves and handler calls in `onPublish`,
 the lifecycle invariant every save keeps, and how `Publish`, `Restart` and
 `onPublish` compose.
 */
module Properties {
  import opened Optional
  import opened Events
  import opened Effects
  import opened Dispatch

  // ---------------------------------------------------------------------------
  // The handler scan

  /**
   The scan calls exactly the handlers it reaches (bound to the name, every
   earlier one bound to the name having succeeded), in registration order; it
   fails exactly when some handler bound to the name fails, and then with the
   error of the last handler it called.
   */
  lemma {:induction false} ScanSpec<H>(hs: seq<EventHandler<H>>, i: nat, name: string, handle: nat -> Option<Error>)
    requires i <= |hs|
    ensures var s := Scan(hs, i, name, handle);
      && Increasing(s.invoked)
      && (forall k :: k in s.invoked <==> Runs(hs, i, name, handle, k))
      && (s.failure.None? <==> AllSucceed(hs, i, name, handle))
      && (s.failure.Some? ==> |s.invoked| > 0 && s.failure == handle(s.invoked[|s.invoked| - 1]))
    decreases |hs| - i
  {
    var s := Scan(hs, i, name, handle);
    if i == |hs| {
    } else if hs[i].event != name {
      ScanSpec(hs, i + 1, name, handle);
      forall k: nat | Runs(hs, i, name, handle, k) ensures Runs(hs, i + 1, name, handle, k) {
        assert k != i;
      }
      forall k: nat | Runs(hs, i + 1, name, handle, k) ensures Runs(hs, i, name, handle, k) {
        forall j | i <= j < k && hs[j].event == name ensures handle(j).None? {
          assert j != i;
        }
      }
      if AllSucceed(hs, i + 1, name, handle) {
        forall k | i <= k < |hs| && hs[k].event == name ensures handle(k).None? {
          assert k != i;
        }
      }
    } else if handle(i).Some? {
      assert s == Scanned([i], handle(i));
      assert Runs(hs, i, name, handle, i);
      forall k: nat | Runs(hs, i, name, handle, k) ensures k == i {
      }
    } else {
      var rest := Scan(hs, i + 1, name, handle);
      ScanSpec(hs, i + 1, name, handle);
      assert s.invoked == [i] + rest.invoked;
      forall k: nat | Runs(hs, i + 1, name, handle, k) ensures Runs(hs, i, name, handle, k) {
        forall j | i <= j < k && hs[j].event == name ensures handle(j).None? {
          if j > i {
            assert i + 1 <= j < k;
          }
        }
      }
      forall k: nat | Runs(hs, i, name, handle, k) && k != i ensures Runs(hs, i + 1, name, handle, k) {
      }
      forall k | k in rest.invoked ensures i < k {
        assert Runs(hs, i + 1, name, handle, k);
      }
      forall a, b | 0 <= a < b < |s.invoked| ensures s.invoked[a] < s.invoked[b] {
        if a == 0 {
          assert s.invoked[b] == rest.invoked[b - 1];
          assert rest.invoked[b - 1] in rest.invoked;
        } else {
          assert s.invoked[a] == rest.invoked[a - 1] && s.invoked[b] == rest.invoked[b - 1];
        }
      }
      if AllSucceed(hs, i + 1, name, handle) {
        forall k | i <= k < |hs| && hs[k].event == name ensures handle(k).None? {
          if k > i {
            assert i + 1 <= k;
          }
        }
      }
    }
  }

  /**
   A binding registered last runs after the earlier ones: the scan over the
   grown registry reaches what it reached before, plus the new binding exactly
   when it matches and every earlier matching handler succeeded.
   */
  lemma RegisterExtendsDispatch<H>(sys: EventSystem<H>, h: EventHandler<H>, name: string, handle: nat -> Option<Error>, k: nat)
    ensures Runs(Register(sys, h).handlers, 0, name, handle, k) <==>
      || Runs(sys.handlers, 0, name, handle, k)
      || (k == |sys.handlers| && h.event == name && AllSucceed(sys.handlers, 0, name, handle))
  {
    var hs := sys.handlers;
    var hs' := Register(sys, h).handlers;
    assert forall j :: 0 <= j < |hs| ==> hs'[j] == hs[j];
    if k == |hs| && h.event == name && AllSucceed(hs, 0, name, handle) {
      assert Runs(hs', 0, name, handle, k);
    }
    if Runs(hs', 0, name, handle, k) && k == |hs| {
      forall j | 0 <= j < |hs| && hs[j].event == name ensures handle(j).None? {
        assert hs'[j] == hs[j];
      }
    }
  }

  /** A sequence with no member is empty. */
  lemma EmptyWithoutMembers(ks: seq<nat>)
    ensures (forall k :: k !in ks) ==> ks == []
  {
    if |ks| > 0 {
      assert ks[0] in ks;
    }
  }

  // ---------------------------------------------------------------------------
  // onPublish

  /** The shape of an `onPublish` trace once handlers run: start save, handler calls, final save. */
  lemma ProcessShape<H, P>(sys: EventSystem<H>, w: World<P>)
    requires Starts(w)
    ensures var t := OnPublish(sys, w).trace;
      var c := w.fetch.event;
      var s := Scan(sys.handlers, 0, c.name, w.handle);
      && |t| == |s.invoked| + 2
      && (forall p :: 0 < p < |t| - 1 ==> t[p] == Invoke(s.invoked[p - 1], c.payload))
      && t[|t| - 1].Save?
      && t[|t| - 1].result == w.save(1)
      && t[|t| - 1].record == (if s.failure.Some? then c.(startedAt := Some(w.clock(0))).(error := s.failure)
                               else c.(startedAt := Some(w.clock(0)), finishedAt := Some(w.clock(1))))
      && (forall k :: k in Invoked(t) <==> k in s.invoked)
  {
    var t := OnPublish(sys, w).trace;
    var c := w.fetch.event;
    var s := Scan(sys.handlers, 0, c.name, w.handle);
    forall k | k in s.invoked ensures k in Invoked(t) {
      var a :| 0 <= a < |s.invoked| && s.invoked[a] == k;
      assert t[a + 1] == Invoke(k, c.payload);
    }
    forall k | k in Invoked(t) ensures k in s.invoked {
      var p :| 0 <= p < |t| && t[p].Invoke? && t[p].index == k;
      assert s.invoked[p - 1] == k;
    }
  }

  /**
   The handlers `onPublish` calls are exactly those bound to the record's name
   up to and including the first that fails, in registration order, each with
   the record's payload; none runs unless the start save succeeded.
   */
  lemma HandlersRunInOrder<H, P>(sys: EventSystem<H>, w: World<P>)
    ensures var t := OnPublish(sys, w).trace;
      && (forall k :: k in Invoked(t) <==>
            Starts(w) && Runs(sys.handlers, 0, w.fetch.event.name, w.handle, k))
      && (forall p, q :: 0 <= p < q < |t| && t[p].Invoke? && t[q].Invoke? ==> t[p].index < t[q].index)
      && (forall p :: 0 <= p < |t| && t[p].Invoke? ==> w.fetch.Found? && t[p].payload == w.fetch.event.payload)
  {
    var t := OnPublish(sys, w).trace;
    if Starts(w) {
      ProcessShape(sys, w);
      ScanSpec(sys.handlers, 0, w.fetch.event.name, w.handle);
    } else {
      assert |t| <= 1;
    }
  }

  /**
   Once handlers run, the final save carries the outcome: the error of the
   failing handler with `FinishedAt` as fetched, or, when every matching
   handler succeeded (also when none matched), `FinishedAt` set and no error.
   */
  lemma FinalSaveRecordsOutcome<H, P>(sys: EventSystem<H>, w: World<P>)
    requires Starts(w)
    ensures var t := OnPublish(sys, w).trace;
      var c := w.fetch.event;
      var last := t[|t| - 1];
      && |t| >= 2 && last.Save? && last.result == w.save(1)
      && SameEvent(last.record, c)
      && last.record.startedAt == Some(w.clock(0))
      && (AllSucceed(sys.handlers, 0, c.name, w.handle) ==>
            last.record.finishedAt == Some(w.clock(1)) && last.record.error.None?)
      && (!AllSucceed(sys.handlers, 0, c.name, w.handle) ==>
            && last.record.finishedAt == c.finishedAt
            && last.record.error.Some?
            && (exists k :: k in Invoked(t) && w.handle(k).Some?)
            && (forall k :: k in Invoked(t) && w.handle(k).Some? ==> last.record.error == w.handle(k)))
  {
    var t := OnPublish(sys, w).trace;
    var c := w.fetch.event;
    var s := Scan(sys.handlers, 0, c.name, w.handle);
    ProcessShape(sys, w);
    ScanSpec(sys.handlers, 0, c.name, w.handle);
    if s.failure.Some? {
      var n := |s.invoked| - 1;
      assert s.invoked[n] in s.invoked;
      assert s.invoked[n] in Invoked(t);
      forall k | k in Invoked(t) && w.handle(k).Some? ensures k == s.invoked[n] {
        assert Runs(sys.handlers, 0, c.name, w.handle, k);
        assert Runs(sys.handlers, 0, c.name, w.handle, s.invoked[n]);
      }
    }
  }

  /**
   The ordering invariant: nothing follows the first effect unless it was a
   successful save marking the record started; a record unfinished when
   fetched is saved finished only after that start save.
   */
  lemma StartedBeforeHandlersAndFinish<H, P>(sys: EventSystem<H>, w: World<P>)
    ensures var t := OnPublish(sys, w).trace;
      && (|t| > 1 ==> t[0].Save? && t[0].result.None? && t[0].record.startedAt.Some?)
      && (forall p :: 0 <= p < |t| && t[p].Invoke? ==> 0 < p)
      && (forall p ::
            (0 <= p < |t| && t[p].Save? && t[p].record.finishedAt.Some? &&
             w.fetch.Found? && w.fetch.event.finishedAt.None?) ==> 0 < p)
  {
    var t := OnPublish(sys, w).trace;
    if Starts(w) {
      ProcessShape(sys, w);
    }
  }

  /**
   Every record `onPublish` saves is well formed when the candidate was
   well formed and unfinished, as the datastore promises: first Running, then
   Finished or Errored according to the handlers.
   */
  lemma OnPublishLifecycle<H, P>(sys: EventSystem<H>, w: World<P>)
    requires w.fetch.Found? && WellFormed(w.fetch.event) && w.fetch.event.finishedAt.None?
    ensures var t := OnPublish(sys, w).trace;
      && (forall p :: 0 <= p < |t| && t[p].Save? ==> WellFormed(t[p].record))
      && (|t| > 0 ==> StageOf(t[0].record) == Running)
      && (|t| > 1 ==>
            StageOf(t[|t| - 1].record) ==
              (if AllSucceed(sys.handlers, 0, w.fetch.event.name, w.handle) then Finished else Errored))
  {
    var t := OnPublish(sys, w).trace;
    if Starts(w) {
      ProcessShape(sys, w);
      FinalSaveRecordsOutcome(sys, w);
    }
  }

  /** An event no handler is bound to, as on a registry fresh from `NewEventSystem`, is finished at once. */
  lemma UnhandledEventFinishes<H, P>(sys: EventSystem<H>, w: World<P>)
    requires Starts(w)
    requires forall k :: 0 <= k < |sys.handlers| ==> sys.handlers[k].event != w.fetch.event.name
    ensures var t := OnPublish(sys, w).trace;
      && |t| == 2
      && Invoked(t) == {}
      && t[1].Save? && t[1].record.finishedAt == Some(w.clock(1)) && t[1].record.error.None?
  {
    var t := OnPublish(sys, w).trace;
    HandlersRunInOrder(sys, w);
    FinalSaveRecordsOutcome(sys, w);
    ProcessShape(sys, w);
    ScanSpec(sys.handlers, 0, w.fetch.event.name, w.handle);
    var s := Scan(sys.handlers, 0, w.fetch.event.name, w.handle);
    EmptyWithoutMembers(s.invoked);
  }

  /**
   The halt-on-error gate as written: once a handler has failed and the
   errored record was saved, the next processing attempt that fetches that
   record panics instead of returning.
   */
  lemma NextAttemptAfterFailurePanics<H, P>(sys: EventSystem<H>, w1: World<P>, w2: World<P>)
    requires Starts(w1) && !AllSucceed(sys.handlers, 0, w1.fetch.event.name, w1.handle)
    requires var t := OnPublish(sys, w1).trace; w2.fetch == Found(t[|t| - 1].record)
    ensures OnPublish(sys, w2) == Run([], Panicked)
    ensures OnPublishIntended(sys, w2) == Run([], Returned)
  {
    FinalSaveRecordsOutcome(sys, w1);
  }

  // ---------------------------------------------------------------------------
  // Composition with Publish and Restart

  /** A record `Publish` saved passes the gate: fetched as-is, it is processed and never panics. */
  lemma PublishedEventIsProcessed<H, P>(sys: EventSystem<H>, name: string, payload: P, w1: World<P>, w2: World<P>)
    requires w2.fetch == Found(Publish(name, payload, w1).trace[0].record)
    ensures OnPublish(sys, w2).outcome == Returned
    ensures var t := OnPublish(sys, w2).trace;
      && |t| > 0 && t[0].Save?
      && t[0].record.name == name && t[0].record.payload == payload
      && StageOf(t[0].record) == Running
  {
  }

  /**
   `Restart` unblocks the pipeline: after it saved the cleared record, a
   processing attempt fetching that record passes the gate and marks it
   started.
   */
  lemma RestartUnblocks<H, P>(sys: EventSystem<H>, w1: World<P>, w2: World<P>)
    requires Blocked(w1) && w1.save(0).None?
    requires w2.fetch == Found(Restart(w1)[0].record)
    ensures TriggerCount(Restart(w1)) == 1
    ensures OnPublish(sys, w2).outcome == Returned
    ensures var t := OnPublish(sys, w2).trace;
      && |t| > 0 && t[0].Save?
      && SameEvent(t[0].record, w1.fetch.event)
      && t[0].record.startedAt == Some(w2.clock(0))
  {
  }

  /**
   The re-entrancy hazard of `Restart`: processing a restarted record calls
   again every handler the failed attempt called, including those that had
   already succeeded, when the handlers behave as before.
   */
  lemma RestartReplaysHandlers<H, P>(sys: EventSystem<H>, w1: World<P>, w2: World<P>, w3: World<P>)
    requires Starts(w1) && !AllSucceed(sys.handlers, 0, w1.fetch.event.name, w1.handle)
    requires var t := OnPublish(sys, w1).trace; w2.fetch == Found(t[|t| - 1].record)
    requires Blocked(w2) && w2.save(0).None?
    requires w3.fetch == Found(Restart(w2)[0].record) && w3.save(0).None?
    requires forall k :: w3.handle(k) == w1.handle(k)
    ensures Invoked(OnPublish(sys, w3).trace) == Invoked(OnPublish(sys, w1).trace)
  {
    FinalSaveRecordsOutcome(sys, w1);
    HandlersRunInOrder(sys, w1);
    HandlersRunInOrder(sys, w3);
    var name := w1.fetch.event.name;
    assert w3.fetch.event.name == name;
    forall k ensures Runs(sys.handlers, 0, name, w3.handle, k) <==> Runs(sys.handlers, 0, name, w1.handle, k) {
    }
  }
}
