# go-eventsystem dispatch core, modelled in Dafny

This project models the dispatch state machine of go-eventsystem
(`eventsystem.go`). Callers `Register` handlers under event names and
`Publish` named events with an opaque payload. Each published event is saved
to a datastore before anything else happens, and a processing goroutine
(`onPublish`) is then started. That goroutine fetches the datastore's next
candidate. If the candidate carries an error, the halt-on-error gate is meant
to stop quietly, but as written it panics (see Findings). Otherwise it marks
the candidate started and saves it. It then runs the matching handlers in
registration order until the first failure, and saves the record as errored
or finished. `Restart` clears the error of a blocked candidate and triggers
processing again.

Each operation is a pure function. It takes the registry and a `World` of
oracles: the result of `GetEvent`, the result of each `SaveEvent` call, the
result of each handler, and the clock readings. It returns the trace of its
effects: `Save(record, result)`, `Invoke(index, payload)` and `Trigger` (the
`go e.onPublish()` statement). `onPublish` also returns whether it returned or
panicked.

Files:
- `optional.dfy`: `Option`, used for Go's nil error and zero time.
- `events.dfy`: the `Event` record, its lifecycle stages and the `WellFormed` invariant.
- `effects.dfy`: the oracles (`Fetch`, `World`), effects and trace measures.
- `eventsystem.dfy`: the registry and `NewEventSystem`, `Register`, `Publish`,
  `OnPublish` (as written), `OnPublishIntended` (error gate fixed) and `Restart`.
- `properties.dfy`: lemmas. They check the handler scan against a reference
  definition, the order of saves and calls, the lifecycle invariant, and how
  the operations compose.

`Event` and `Datastore` are declared outside `eventsystem.go` and are not part of this model.
`Event` is given the fields `eventsystem.go` uses. The datastore becomes the oracle `World`.

`Restart` does not trigger processing when the fetch fails (eventsystem.go:103-106)
or when saving the cleared record fails (eventsystem.go:110-113). Otherwise it
triggers whether or not a blocked record was found.

## Model

| member | source | states |
|---|---|---|
| `Dispatch.NewEventSystem` | eventsystem.go:21-27 | A fresh registry reaches no handler for any event name or handler outcome, so processing treats every event as having all its handlers succeed. |
| `Dispatch.Register` | eventsystem.go:29-33 | Appends exactly one binding at the end: the length grows by one, every earlier binding is unchanged, the new one is last, with no uniqueness check. |
| `Properties.RegisterExtendsDispatch` | eventsystem.go:76-89 | After `Register`, dispatch reaches the same handlers as before. It reaches the new binding too exactly when its name matches and every earlier matching handler succeeded. |
| `Properties.ScanSpec` | eventsystem.go:76-90 | The handler scan (`Dispatch.Scan`, which models this loop) calls exactly the handlers bound to the name up to and including the first failure, in increasing registration order. It fails exactly when some matching handler fails, and then with the last called handler's error. |
| `Dispatch.Publish` | eventsystem.go:35-51 | Saves exactly one record: empty id, the given name and payload, published now, started/finished/error unset (Pending, well formed). It returns the save's error. It emits one trigger when the save succeeds and none when it fails. |
| `Properties.PublishedEventIsProcessed` | eventsystem.go:38-74 | A record saved by `Publish`, once fetched, passes the error gate, never panics, and is saved as Running with its name and payload intact. |
| `Dispatch.OnPublish` | eventsystem.go:54-97 | Panics exactly when the candidate carries an error. It has effects exactly when a candidate was fetched and passed the gate, and then the first effect saves the candidate with `StartedAt` set. It never triggers, and a failed save is always its last effect. |
| `Dispatch.OnPublishIntended` | eventsystem.go:64-68 | The gate fixed to return quietly: the same trace as `OnPublish` on every input, and it never panics. |
| `Properties.ProcessShape` | eventsystem.go:70-96 | For `Dispatch.Process`, which models these lines, and so for `OnPublish`: once the start save succeeds, the trace is: start save, one call per scanned handler with the payload, then a final save. The final save records the error, or `FinishedAt` if no handler failed. |
| `Properties.HandlersRunInOrder` | eventsystem.go:76-90 | A handler is called iff the start save succeeded and it is bound to the record's name with every earlier matching handler having succeeded. Calls are in registration order and carry the record's payload. |
| `Properties.FinalSaveRecordsOutcome` | eventsystem.go:81-96 | On a handler failure, the final save carries the error of the failing (called) handler and `FinishedAt` as fetched. When all matching handlers succeed, including when none match, it has `FinishedAt` set and no error. Identity fields are kept. |
| `Properties.StartedBeforeHandlersAndFinish` | eventsystem.go:70-93 | Nothing follows the first effect unless that effect was a successful save with `StartedAt` set. No handler call and no save of a record newly marked finished comes first. |
| `Properties.OnPublishLifecycle` | eventsystem.go:70-96 | If the candidate is well formed and unfinished, every saved record is well formed. The first is Running and the last is Finished or Errored according to the handlers. |
| `Properties.UnhandledEventFinishes` | eventsystem.go:76-96 | An event no handler is bound to, as on a fresh registry, gets no call and is saved finished with no error. |
| `Properties.NextAttemptAfterFailurePanics` | eventsystem.go:64-68 | After a handler failure is saved, the next attempt that fetches the errored record panics with no effect; the intended version returns quietly. |
| `Dispatch.Restart` | eventsystem.go:99-117 | Saves exactly once, the candidate with its error cleared (well formed if the candidate was), and only when the candidate is errored. It triggers once unless the fetch or that save failed, and the save always comes before the trigger. It never calls a handler, and a failed save is last. |
| `Properties.RestartUnblocks` | eventsystem.go:107-117 | After `Restart` clears and saves a blocked record, it triggers, and an attempt fetching that record passes the gate and marks it started. |
| `Properties.RestartReplaysHandlers` | eventsystem.go:100-117 | Re-entrancy hazard: with handlers that behave as before, processing a restarted record calls every handler the failed attempt called, including those that already succeeded. |

## Findings

| source | as written | input that shows it | evidently intended | confidence | as-written member | corrected member |
|---|---|---|---|---|---|---|
| eventsystem.go:65-67 | The halt-on-error gate formats `err.Error()`, but `err` is the fetch's error, already known to be nil. The argument is evaluated whether or not logging is on, so the goroutine panics on a nil dereference. An unrecovered panic in any goroutine ends the whole Go process, not only that goroutine. The `for` only ever runs once, like an `if`. | A handler fails and its errored record is saved; the next `Publish` starts `onPublish`, which fetches that record. | Log and return quietly, leaving the record blocked until `Restart`. | high; not executed | `Properties.NextAttemptAfterFailurePanics` | `Dispatch.OnPublishIntended` |

## Left out

- The goroutines at eventsystem.go:48 and :116 are a `Trigger` effect, not concurrent execution. The race between concurrent processing attempts (two attempts fetching the same candidate) is a concurrency property, outside a sequential model.
- Logging (`log`, `fmt.Println`, the `enableLog` flag) is a side channel with no effect on state. `enableLog` is kept in the registry but never read.
- `time.Now()` is the oracle `clock`. Only unset versus set matters to the core.
- The datastore implementation, its candidate ordering and the id it assigns on save are not modelled. `GetEvent` and `SaveEvent` results are oracle inputs. A record changed inside `SaveEvent` (such as an assigned id) is not visible to the model.
- Handler bodies and payload contents are opaque. A handler is its name plus an oracle result per registration index.
- `Publish` and `Restart` do not read the handler list, so their model takes no registry argument.
- Properties.FinalSaveRecordsOutcome: on a handler failure it states `FinishedAt` as fetched, not "unset". The code never clears `FinishedAt`, so it is unset only if the datastore returns an unfinished candidate, as its contract says (`OnPublishLifecycle` assumes this).
