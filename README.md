# Unity3DUtilityScript — typed event bus and real-time delayed calls, in Dafny

This project models two utilities of a Unity script collection and proves
what they promise.

**The Messenger** (`Messegers/Messenger.cs`) is a string-keyed publish/subscribe
bus. One process-wide table maps an event name to one composed delegate. Every
arity class (`Messenger`, `Messenger<T>`, …, `Messenger<T,U,V,K,Z,X,Y>`)
reads and writes that same table. Listeners of one name must share one
delegate type. `AddListener` appends to the chain. `RemoveListener` subtracts
one occurrence and drops the name once its chain is empty. `Broadcast` checks
the mode and the delegate type, then calls the chain in order.

**The RealTimeInvoker** (`Other/RealTimeInvoker.cs`) is a list of delayed calls
timed by the real-time clock. `InvokeDelay` appends an entry. `Update` walks
the list with an index, fires every due entry and removes it in place.

Files:

- `results.dfy` — module `Results`: `Option` and `Result` for the operations
  that throw in the original.
- `callback.dfy` — module `Callback`: a `Signature` is the ordered list of a
  delegate's type arguments. Only the arities declared in
  `Messegers/Callback.cs` exist: 0 to 5, and 7.
- `messenger.dfy` — module `Messenger`:
  - `Delegate` is `Null` or a `Chain` (a signature plus an invocation list).
  - `Plus` is `+` and `Minus` is `-` on delegates.
  - `Subscribe`, `Unsubscribe` and `Dispatch` are the three operations on the
    table as a value.
  - Class `EventTable` holds the table as a mutable field, with the guard,
    update and clean-up steps as methods.
  - A handler carries its own signature, so one set of methods stands for
    every arity class.
- `messenger_properties.dfy` — module `MessengerProperties`: the guard and
  update rules, the table invariant, the add/remove round trip, and the
  broadcast rules.
- `realtime_invoker.dfy` — module `RealTimeInvoker`:
  - Class `Invoker` holds `infoList` as a `seq` field.
  - The `Update` loop is proved against the filters `Due` and `Pending`.
  - Lemmas about those filters sit beside it.

Modelling choices:

- A null value in the event table is kept as `Delegate.Null`.
  `OnListenerAdding` can store it for a moment, and `RemoveListener` treats it
  as an error. `WellFormed` says that no null and no empty chain survives
  AddListener or RemoveListener. `NullListenerUnreachable` proves from this that the
  null-listener error cannot occur. That holds only because handlers are never
  null in the model (see "## Left out").
- Every handler is a single-cast delegate. `-` on delegates removes the LAST
  occurrence of that handler. It leaves the chain as it was when the handler
  is absent, and gives null when nothing is left. For a single-cast argument
  this is what .NET's `Delegate.Remove` does.
- Removing a handler that was never added, under a known name of the same
  signature, is not an error. The checks at Messegers/Messenger.cs:79-92 look
  only at the name and the delegate type, and `-` leaves the chain as it is.
  `RemoveAbsentHandlerKeepsTable` proves this.
- A broadcast calls nothing here. It returns the invocation trace: one
  `Invocation(handler, args)` for each chain entry, in order.
- Error kinds follow the code:
  - The three remove failures all throw `ListenerException`: unknown name,
    null entry, other signature. So does the add failure.
  - Both broadcast failures throw `BroadcastException`.
  - Each carries a fault value naming the throw site, in place of the message.
- Clocks and actions are inputs. `now: real` stands for
  `Time.realtimeSinceStartup`. An `ActionId` stands for a `System.Action`.
  A null action is `None`.

## Model

| member | source | states |
|---|---|---|
| `Messenger.LastIndexOf` | Messegers/Messenger.cs:149 | the result is -1 exactly when the handler is absent; otherwise it is a position holding the handler, with no later occurrence (the one `-` removes) |
| `Messenger.Invocations` | Messegers/Messenger.cs:171 | invoking a chain makes one call per entry, the i-th call going to the i-th handler with the broadcast's arguments |
| `Messenger.Delegate.Plus` | Messegers/Messenger.cs:143 | `d + h` is a non-null chain of h's signature whose last entry is h and whose earlier entries are d's (none when d is null); further characterised by PlusThenMinus |
| `Messenger.Delegate.Minus` | Messegers/Messenger.cs:149 | `d - h` leaves null as null and leaves a chain without h unchanged; with h present it gives null exactly when h was the only entry, and otherwise a chain of the same signature one entry shorter; characterised exactly by MinusRemovesLastOccurrence and MinusAbsentIsIdentity |
| `Messenger.Subscribe` | Messegers/Messenger.cs:140-144 | AddListener on the table as a value: fails, with AddSignatureMismatch, exactly when the name holds a chain of another signature; otherwise the key set gains the name, the name holds a chain of h's signature, and every other name is unchanged (see AddToUnknownName, AddAppends) |
| `Messenger.Unsubscribe` | Messegers/Messenger.cs:146-151 | RemoveListener on the table as a value: an absent name fails with UnknownEventType, and every failure is a ListenerException; it succeeds exactly when the name holds a chain of h's signature, and then only that name changes, staying exactly when `d - h` is non-null (see RemoveOneOccurrence, AddThenRemoveRestores) |
| `Messenger.Dispatch` | Messegers/Messenger.cs:161-176 | Broadcast on the table as a value: every failure is a BroadcastException; an absent name succeeds, with no calls, exactly in DONT_REQUIRE_LISTENER mode; a present name succeeds exactly when it holds a chain of the broadcaster's signature, with one call per entry (see BroadcastInvokesChainInOrder) |
| `Messenger.EventTable.constructor` | Messegers/Messenger.cs:57 | the table starts empty and well-formed |
| `Messenger.EventTable.OnListenerAdding` | Messegers/Messenger.cs:60-72 | an unknown name gets a null entry, and nothing else changes; the result is an AddSignatureMismatch ListenerException exactly when the name already holds a chain of another signature |
| `Messenger.EventTable.OnListenerRemoving` | Messegers/Messenger.cs:74-93 | passes exactly when the name holds a non-null chain of the handler's signature; otherwise it reports an unknown name, a null entry, or another signature, each as a ListenerException |
| `Messenger.EventTable.OnListenerRemoved` | Messegers/Messenger.cs:95-99 | the name is dropped exactly when its value is null; otherwise the table is unchanged |
| `Messenger.EventTable.OnBroadcasting` | Messegers/Messenger.cs:107-112 | fails with a NoListener BroadcastException exactly when the mode is REQUIRE_LISTENER and the name is absent |
| `Messenger.EventTable.AddListener` | Messegers/Messenger.cs:140-144 | the new table and the error are those of `Subscribe`; on an error the table is unchanged; the table invariant is kept |
| `Messenger.EventTable.RemoveListener` | Messegers/Messenger.cs:146-151 | the new table and the error are those of `Unsubscribe`; on an error the table is unchanged; the table invariant is kept |
| `Messenger.EventTable.Broadcast` | Messegers/Messenger.cs:161-176 | the trace or error is `Dispatch` of the current table; the method modifies nothing, so the table is unchanged |
| `Messenger.EventTable.BroadcastDefault` | Messegers/Messenger.cs:153-159 | broadcasting without a mode uses DONT_REQUIRE_LISTENER, so an absent name gives an empty trace |
| `MessengerProperties.MinusRemovesLastOccurrence` | Messegers/Messenger.cs:149 | `d - h` with h present removes exactly the last occurrence of h, giving null when h was the only entry; the remaining list has one copy of h fewer |
| `MessengerProperties.MinusAbsentIsIdentity` | Messegers/Messenger.cs:149 | `d - h` is the delegate itself exactly when it is null or h does not occur in it; otherwise something is removed |
| `MessengerProperties.PlusThenMinus` | Messegers/Messenger.cs:143-149 | subtracting the handler just added gives back the delegate held before |
| `MessengerProperties.AddToUnknownName` | Messegers/Messenger.cs:65-67 | adding under a new name creates exactly the entry [h] with h's signature, and only that key is added |
| `MessengerProperties.AddWithOtherSignatureFails` | Messegers/Messenger.cs:68-71 | adding with a signature other than the chain's fails with ListenerException, and no new table results |
| `MessengerProperties.AddAppends` | Messegers/Messenger.cs:143 | adding with the chain's signature appends h at the end of that chain; the key set and every other name are unchanged |
| `MessengerProperties.AddFailsIffBroadcastMismatches` | Messegers/Messenger.cs:65-71 | on a well-formed table, AddListener of h fails exactly when a Broadcast of h's signature under that name fails with the signature error (:173), in either mode |
| `MessengerProperties.AddPreservesWellFormed` | Messegers/Messenger.cs:140-144 | adding keeps every name mapped to a non-empty chain |
| `MessengerProperties.RemoveFromUnknownNameFails` | Messegers/Messenger.cs:90-91 | removing under an absent name fails with the unknown-event ListenerException |
| `MessengerProperties.RemoveWithOtherSignatureFails` | Messegers/Messenger.cs:87-88 | removing with a signature other than the chain's fails with ListenerException |
| `MessengerProperties.NullListenerUnreachable` | Messegers/Messenger.cs:85-86 | in a well-formed table the null-listener branch never fires, so removal fails exactly when the name is absent or of another signature |
| `MessengerProperties.RemoveAbsentHandlerKeepsTable` | Messegers/Messenger.cs:149 | removing a handler that is not in the chain succeeds and leaves the table unchanged |
| `MessengerProperties.RemoveOneOccurrence` | Messegers/Messenger.cs:146-151 | removing a present handler takes its LAST copy out of the chain and keeps the other entries in registration order (so later broadcasts keep that order), one copy fewer as a multiset; the name leaves the table exactly when the chain was [h]; other names are untouched |
| `MessengerProperties.RemovePreservesWellFormed` | Messegers/Messenger.cs:95-99 | removing keeps every name mapped to a non-empty chain, because an emptied chain's name is dropped |
| `MessengerProperties.AddThenRemoveRestores` | Messegers/Messenger.cs:140-151 | RemoveListener right after AddListener of the same handler restores the table exactly |
| `MessengerProperties.ReAddAfterLastRemoval` | Messegers/Messenger.cs:95-99 | once the last listener of a name is removed, a listener of any signature can be added under it |
| `MessengerProperties.BroadcastToUnknownName` | Messegers/Messenger.cs:107-112 | an absent name fails with NoListener under REQUIRE_LISTENER and gives an empty trace under DONT_REQUIRE_LISTENER and the default mode |
| `MessengerProperties.BroadcastWithOtherSignatureFails` | Messegers/Messenger.cs:168-174 | a present name whose chain has another signature fails with a signature BroadcastException in either mode |
| `MessengerProperties.BroadcastInvokesChainInOrder` | Messegers/Messenger.cs:168-171 | a matching broadcast succeeds and calls every chain entry once, in chain order, each with the same arguments |
| `MessengerProperties.BroadcastSucceedsIff` | Messegers/Messenger.cs:161-176 | on a well-formed table a broadcast succeeds exactly when the name is absent in DONT_REQUIRE_LISTENER mode, or present with the broadcaster's signature |
| `MessengerProperties.TwoListenersInRegistrationOrder` | Messegers/Messenger.cs:140-176 | two listeners of one signature added under a fresh name are both called by a broadcast, in the order they were added |
| `RealTimeInvoker.ClampDelay` | Other/RealTimeInvoker.cs:45-47 | the clamped delay is never negative; it is the delay itself or 0, and never below it (that is, max(delay, 0)) |
| `RealTimeInvoker.Actions` | Other/RealTimeInvoker.cs:60 | the actions called for a list of entries, one per entry, the i-th being the i-th entry's action |
| `RealTimeInvoker.Due` | Other/RealTimeInvoker.cs:59-61 | the entries Update fires, in list order, no more than the list holds; characterised by FilterMembership, FilterAppend and DueAndPendingPartition |
| `RealTimeInvoker.Pending` | Other/RealTimeInvoker.cs:62-64 | the entries Update keeps, in list order, no more than the list holds; characterised by FilterMembership, PendingNotDue and UpdateIsIdempotent |
| `RealTimeInvoker.Invoker.constructor` | Other/RealTimeInvoker.cs:12-13 | the clock reading starts at 0 and the list starts empty |
| `RealTimeInvoker.Invoker.InvokeDelay` | Other/RealTimeInvoker.cs:28-35 | a null action schedules nothing; any other action appends one entry due at now + max(delay, 0) |
| `RealTimeInvoker.Invoker.InternalInvokeDelay` | Other/RealTimeInvoker.cs:44-50 | exactly one entry, due at now + max(delay, 0), is appended; earlier entries and the clock are unchanged |
| `RealTimeInvoker.Invoker.Update` | Other/RealTimeInvoker.cs:52-67 | the clock becomes now; the fired actions are exactly those of the due entries, in list order; the list keeps exactly the other entries, in their original order; the loop terminates, since each pass removes an entry or advances the index |
| `RealTimeInvoker.Invoker.OnDestroy` | Other/RealTimeInvoker.cs:69-70 | the list becomes empty |
| `RealTimeInvoker.UpdateStep` | Other/RealTimeInvoker.cs:57-64 | one loop iteration: the entry at index i is the next unexamined one; firing it removes it, and skipping it extends the kept prefix |
| `RealTimeInvoker.FilterAppend` | Other/RealTimeInvoker.cs:49 | an entry appended at the end is fired, or kept, after all earlier entries |
| `RealTimeInvoker.FilterMembership` | Other/RealTimeInvoker.cs:59-61 | an entry is fired if and only if it is in the list and due; it is kept if and only if it is in the list and not due |
| `RealTimeInvoker.DueAndPendingPartition` | Other/RealTimeInvoker.cs:57-65 | fired and kept entries together are the old list as a multiset: nothing is lost or duplicated |
| `RealTimeInvoker.PendingNotDue` | Other/RealTimeInvoker.cs:57-65 | every entry left after an Update at now is due strictly later than now |
| `RealTimeInvoker.UpdateIsIdempotent` | Other/RealTimeInvoker.cs:52-67 | a second Update at the same clock reading fires nothing and leaves the list unchanged |
| `RealTimeInvoker.NothingDueKeepsAll` | Other/RealTimeInvoker.cs:57-64 | when no entry is due, Update fires nothing and keeps the whole list |
| `RealTimeInvoker.ScheduledEntryFiresWhenDue` | Other/RealTimeInvoker.cs:44-61 | a call scheduled at now with any delay fires at the first Update reading at least now + max(delay, 0), after the earlier due entries, and never before now |

## Left out

- The separate classes `Messenger` through `Messenger<T,U,V,K,Z,X,Y>` are one set of operations here. A `Handler` or a broadcast carries its own `Signature`. C#'s compile-time typing is the `Signature` type (arities 0–5 and 7) and the precondition that a broadcast passes one argument per type argument.
- Real delegate invocation is not modelled. A broadcast returns its trace. So an exception thrown by a listener (which would abort the rest of the chain) is not modelled, and neither is a listener that changes the table during a broadcast.
- Re-entrant scheduling is not modelled: an action that calls `InvokeDelay` during `Update` would append to the list being scanned.
- `Update` must call the actions. The model only records their identifiers, so no action throws. In the original, an action that throws at Other/RealTimeInvoker.cs:60 ends `Update` before the `RemoveAt` at :61. That entry then stays and fires again at the next `Update`, and the due entries after it wait.
- Non-finite times are not modelled. A `float` invoke time of NaN is never due and never removed; `real` has no such value.
- `RealTimeInvoker.Spawn`, the `mInst` singleton and its reset in `OnDestroy` are Unity object lifecycle (GameObject creation). They have no state worth modelling, so `InvokeDelay` is a method of one `Invoker`.
- `Time.realtimeSinceStartup` is the parameter `now`. Float rounding of `now + delay` is ignored: times are `real`.
- The `#if LOG_*` logging, the exception message strings and `CreateBroadcastSignatureException` (Messegers/Messenger.cs:114-117) are left out. Errors are an `Error` value with a fault reason.
- Handlers are never null here. In the original, adding a null handler under a new name stores null (`null + null` at Messegers/Messenger.cs:143). That makes the null-listener error of RemoveListener (:85-86) reachable, and a later Broadcast fails with the signature BroadcastException through `null as Callback` (:169-173).
- AddListener, RemoveListener and `Delegate.Minus`: multicast handler arguments are not modelled. In the original, a multicast `Callback` passed to AddListener appends its whole invocation list at :143. Passed to RemoveListener, `-` at :149 removes the last contiguous occurrence of that list, not one handler.
- Delegate-type identity is equality of `Signature` values. Variant generic delegates do not exist here: `Callback` declares no `in`/`out` parameters, so `as` and `GetType() ==` agree.
- Concurrency: the original is single-threaded.
- `Screen/ScreenRuler.cs` is not part of this model. It is editor-only GL drawing with float pixel arithmetic.
