# Indexed ring buffer and message broker, modelled in Dafny

This project models two parts of the Go module `github.com/guillermo/go`:

- **`messagestore`** is an indexed, push-only circular buffer of fixed capacity. Every element pushed gets the next absolute index. Once the buffer is full, each push overwrites the oldest element and advances `first`, the absolute index of the oldest resident element.
- **`messagebroker`** is a publish/subscribe loop built on that store. Its loop owns the store and a list of live subscriptions. It reacts to four events:
  - a published value: push it, then send it with its index to every live subscription;
  - a new subscription: append it to the list, then send it the stored backlog from its starting index;
  - an unsubscribe request: remove it from the list and close its channel;
  - the closing of the publish channel: close every subscription and exit.

The model works as follows:

- The store is an immutable datatype holding the Go struct's fields: `msgs` (as `slots`), its capacity, `first` and `nextPointer`. Its abstraction is `Messages`, the logical window, oldest first.
- The loop is a pure step function over events. A send on a subscription's channel appends to that subscription's delivery log; closing the channel sets a flag.
- Payloads are a type parameter.
- Go panics and the `IndexOutOfRange` error value become the `Err` side of a `Result`.

The modules are:

- `Wrappers`: `Result`.
- `Bounds`: `Min`, `Max` and `Clamp` on integers.
- `MessageStore`: the store, with `Get`, `Range` and `From` in their corrected form.
- `StoreAsWritten`: `Get`, `Range` and `From` exactly as the Go code computes them, the loop step that uses the code's `From`, and lemmas that exhibit each divergence on a concrete input.
- `MessageBroker`: the loop's state, the step for each event, `Step` and `Run`. It also has a method modelling the in-place removal loop of the unsubscribe case.
- `Delivery`: the delivery guarantees, stated against the history of accepted payloads.
- `Scenarios`: the runs of the repository's tests, replayed through the model.

The central results are:

- `MessageStore.PushAllWindow`: after n pushes into a store of capacity c, it holds the last min(n, c) payloads, oldest first. Its ends are indexed by the number of evictions, and `nextPointer` is n mod c.
- `Delivery.ReachableStatesTrack`: every state reachable from a new broker keeps its store in step with the history of accepted payloads. In every such state, each live subscription has been sent a gap-free, duplicate-free run of messages that ends at the newest index, each carrying the payload published at that index.
- `Delivery.NoGapNoDuplicate`: a subscription whose starting index lies in [First, First + Size] is sent exactly the messages from that index on, after any later events.

## Model

| member | source | states |
|---|---|---|
| MessageStore.NewWithFirst | messagestore/messagestore.go:25-43 | fails with a panic exactly when the capacity is below 1; otherwise the store is empty, First is the given origin, Last equals First, Size is 0 and nextPointer is 0 |
| MessageStore.New | messagestore/messagestore.go:25-35 | fails with the capacity error exactly when the capacity is below 1; otherwise a valid store of exactly that capacity with an empty window, Size 0, First and Last 0 and nextPointer 0 |
| MessageStore.Inc | messagestore/messagestore.go:60-68 | only nextPointer changes, and it becomes (nextPointer + 1) mod capacity |
| MessageStore.Push | messagestore/messagestore.go:45-58 | keeps the store invariant; Size grows by one up to the capacity; First moves by one exactly when the store was full; the new window is the old one with the oldest dropped if full, then the payload appended |
| MessageStore.Last | messagestore/messagestore.go:70-80 | a non-empty store: the newest resident index, resident while the next one is not; an empty store: First, which is not resident |
| MessageStore.First | messagestore/messagestore.go:82-87 | a non-empty store: the oldest resident index, resident while the one before is not; an empty store: equals Last |
| MessageStore.Messages | messagestore/messagestore.go:89-97 | the window has one entry per occupied slot |
| MessageStore.MessagesReadSlots | messagestore/messagestore.go:89-97 | window entry k is read from slot SlotOf(k): slot k while filling, the slot k places after nextPointer (wrapping) once full |
| MessageStore.SlotIsModulo | messagestore/messagestore.go:93-96 | that slot is (nextPointer + k) mod capacity once the store is full |
| MessageStore.MessagesPermuteSlots | messagestore/messagestore.go:89-97 | the window is a permutation of the slots: same payloads, each as often |
| MessageStore.Size | messagestore/messagestore.go:99-102 | the size is at most the capacity and equals the window's length |
| MessageStore.Get | messagestore/messagestore.go:104-118 | corrected: returns IndexOutOfRange exactly when the index is below First, at or past First + Size, or the store is empty; otherwise returns the window entry at index - First |
| MessageStore.Range | messagestore/messagestore.go:120-136 | corrected: the result length is the overlap of [from, to) with the resident indices, never more than to - from; a non-empty result is the contiguous part of the window starting at max(from, First) |
| MessageStore.From | messagestore/messagestore.go:138-141 | corrected: the window from index max(from, First) on, so everything resident at index from or later |
| MessageStore.RangeToEndIsSuffix | messagestore/messagestore.go:138-141 | Range(from, First + Size) is the window suffix from the clamped start |
| MessageStore.FromIsRangeOfSize | messagestore/messagestore.go:138-141 | for from not below First, From(from) equals the code's Range(from, from + Size) |
| MessageStore.PushAllWindow | messagestore/messagestore.go:45-68 | after pushing xs into a new store of capacity c with a given origin, it holds the last min(n, c) payloads oldest first; First is the origin plus max(0, n - c); Last is the origin plus max(0, n - 1); nextPointer is n mod c |
| MessageStore.PushExtendsHistory | messagestore/messagestore.go:45-58 | one push carries that description of n pushes over to n + 1 |
| MessageStore.FirstAndLastAreEnds | messagestore/messagestore.go:70-87 | empty: Last equals First and Get(First) fails; non-empty: Last is First + Size - 1, Get reads the oldest payload at First and the newest at Last, and the indices just outside both ends are not resident |
| MessageStore.NextPointerNamesOldest | messagestore/messagestore.go:60-68 | while filling, nextPointer equals Size; once full, its slot holds the oldest payload |
| MessageStore.PushedIsLast | messagestore/messagestore.go:70-80 | after a push, Get at the new Last returns the pushed payload, and the new Last is the old Last + 1 (or First if the store was empty) |
| StoreAsWritten.GetAsWritten | messagestore/messagestore.go:104-118 | the code's Get: IndexOutOfRange exactly when the index is not resident; a panic exactly when nextPointer + offset exceeds the capacity; it agrees with the corrected Get whenever it succeeds on a store that has not wrapped |
| StoreAsWritten.RangeAsWritten | messagestore/messagestore.go:120-136 | the code's Range: it panics exactly when no early return applies and from is below First or above to; when it does not panic it equals the corrected Range |
| StoreAsWritten.FromAsWritten | messagestore/messagestore.go:138-141 | the code's From: equals the corrected From when from is not below First; panics exactly when the store is non-empty and from < First <= from + Size; returns nothing when from + Size < First |
| StoreAsWritten.ReplayAsWritten | messagebroker/messagesubscribe.go:112-117 | the code's subscribe backlog: a slice-bounds panic exactly when the store is non-empty and from < First <= from + Size; equal to the corrected Replay when from is not below First; empty when from + Size < First |
| StoreAsWritten.TaggedFromIsReplay | messagebroker/messagesubscribe.go:114-117 | from a start not below First, tagging the corrected From with consecutive indices gives the corrected Replay |
| StoreAsWritten.SubscribeStepAsWritten | messagebroker/messagesubscribe.go:112-117 | the code's subscribe case: panics exactly when the store is non-empty and from < First <= from + Size; equals the corrected SubscribeStep when from is not below First; when from + Size < First it appends an open subscription with an empty log and changes nothing else |
| StoreAsWritten.StepAsWritten | messagebroker/messagesubscribe.go:95-128 | the code's loop iteration: fails exactly on a subscribe, before exit, whose start satisfies from < First <= from + Size of a non-empty store; on every event other than a subscribe below First it equals the corrected Step |
| StoreAsWritten.SubscribeBelowFirstPanics | messagebroker/messagesubscribe.go:112-117 | capacity 2, publish 10, 11, 12 (First 1), then subscribe from 0: the code's loop panics where the corrected step sends (1, 11) then (2, 12) |
| StoreAsWritten.GetReadsStaleSlot | messagestore/messagestore.go:113-117 | capacity 2, pushes 10, 11, 12: the code's Get(1) returns 12 where the payload with index 1 is 11 |
| StoreAsWritten.GetPanicsBeforeFull | messagestore/messagestore.go:113-117 | capacity 4, pushes 10, 11, 12: the store is not full, yet the code's Get(2) indexes a negative slot |
| StoreAsWritten.RangePanicsBelowFirst | messagestore/messagestore.go:130-135 | capacity 2, pushes 10, 11, 12 (First is 1): the code's Range(0, 2) panics where the resident part of [0, 2) is [11] |
| StoreAsWritten.RangePanicsOnReversedBounds | messagestore/messagestore.go:130-135 | first index 10, pushes 1, 2: the code's Range(11, 10) panics where [11, 10) is empty |
| StoreAsWritten.FromSkipsResidentHistory | messagestore/messagestore.go:138-141 | capacity 1, pushes 10, 11, 12 (First is 2): the code's From(0) and subscribe backlog from 0 are empty although 12 with index 2 is resident |
| MessageBroker.NewBroker | messagebroker/messagesubscribe.go:50-68 | fails exactly when the size is below 1; otherwise a running broker with an empty store of that capacity and no subscriptions |
| MessageBroker.Tag | messagebroker/messagesubscribe.go:115-117 | each payload is labelled with consecutive indices from the start index, in order |
| MessageBroker.Replay | messagebroker/messagesubscribe.go:112-117 | corrected: the backlog a new subscription is sent: one message per resident index from the clamped start to the newest, each with the window's payload for that index |
| MessageBroker.ReplayAgreesWithGet | messagebroker/messagesubscribe.go:112-117 | every replayed message carries the payload Get returns for its index |
| MessageBroker.ReplayEndsAtLast | messagebroker/messagesubscribe.go:112-117 | a non-empty backlog ends at Last; from inside [First, First + Size] it has First + Size - from messages with indices from, from + 1, ... |
| MessageBroker.DeliverAll | messagebroker/messagesubscribe.go:109-111 | each subscription in the live list gets the message appended to its log exactly once; every other subscription, and every start index and closed flag, is unchanged |
| MessageBroker.IndexOf | messagebroker/messagesubscribe.go:120-121 | the first position at which a subscription occurs in the list |
| MessageBroker.Remove | messagebroker/messagesubscribe.go:118-125 | the list without the given subscription: exactly the other members remain, and a list without it is returned unchanged |
| MessageBroker.RemoveCutsOnePosition | messagebroker/messagesubscribe.go:120-124 | in a list holding each subscription once, removal cuts out exactly the one position it occupies, keeps the others in order and keeps the list duplicate-free |
| MessageBroker.PublishStep | messagebroker/messagesubscribe.go:107-111 | the store becomes Push(store, x) and Get at its new Last returns x; the live list is unchanged; each live subscription's log gains exactly the message (new Last, x); every other subscription is unchanged |
| MessageBroker.SubscribeStep | messagebroker/messagesubscribe.go:112-117 | corrected: the store is unchanged; the new subscription goes to the end of the live list, open, with the backlog as its log; existing subscriptions are unchanged |
| MessageBroker.UnsubscribeStep | messagebroker/messagesubscribe.go:118-125 | a live subscription is cut from its one position in the list and its channel closed, with everything else unchanged; one not in the list leaves the broker unchanged |
| MessageBroker.UnsubscribeLoop | messagebroker/messagesubscribe.go:118-125 | the range loop that removes in place from the list it iterates over, shifting the backing array: on a duplicate-free list it leaves exactly the list without the target and closes exactly the target's channel, once, when the target was present |
| MessageBroker.RemovalStep | messagebroker/messagesubscribe.go:121-123 | the iteration that meets the target leaves the list without it and no later slot of the backing array holding it |
| MessageBroker.ShiftDownAt | messagebroker/messagesubscribe.go:122 | removing position i in place moves the tail down one place and leaves the last slot of the backing array as it was |
| MessageBroker.StopStep | messagebroker/messagesubscribe.go:99-106 | every live subscription's channel is closed, the list is emptied and the loop exits; the store and the logs are unchanged |
| MessageBroker.Step | messagebroker/messagesubscribe.go:95-128 | one loop iteration keeps the state well formed: the list holds each live subscription once and never a closed one. Each subscription keeps its start index, its log only grows, and a closed one never changes; after exit nothing changes |
| MessageBroker.Run | messagebroker/messagesubscribe.go:95-128 | the same over any sequence of events |
| Delivery.NewBrokerTracks | messagebroker/messagesubscribe.go:50-68 | a new broker is in step with the empty history |
| Delivery.PushTracks | messagestore/messagestore.go:45-58 | a store holding the newest payloads of a history (the n-push description with origin 0) holds those of the history extended by the pushed payload, whose index is the history's length |
| Delivery.StoreTracksEnds | messagestore/messagestore.go:70-97 | a store in step with a history starts at a non-negative First, ends at the history's length, and its window is the history from First on |
| Delivery.PublishTracks | messagebroker/messagesubscribe.go:107-111 | a publish keeps the broker in step with the history extended by the payload, and every live subscription up to date |
| Delivery.DeliverKeepsUpToDate | messagebroker/messagesubscribe.go:109-111 | sending the newest message to every live subscription keeps each one's log a gap-free run ending at the newest index |
| Delivery.ReplayIsWindow | messagebroker/messagesubscribe.go:112-117 | the backlog equals the history from the clamped start index, with every payload at its own index |
| Delivery.SubscribeTracks | messagebroker/messagesubscribe.go:112-117 | a subscribe keeps the broker in step with the history; the new subscription is up to date at once |
| Delivery.SubscribeInsideWindow | messagebroker/messagesubscribe.go:112-117 | a subscription starting inside [First, First + Size] is sent the history from exactly its starting index |
| Delivery.UnsubscribeTracks | messagebroker/messagesubscribe.go:118-125 | an unsubscribe keeps the broker in step with the history |
| Delivery.StepTracks | messagebroker/messagesubscribe.go:95-128 | every step keeps the broker in step with the history extended by what it accepted |
| Delivery.RunTracks | messagebroker/messagesubscribe.go:95-128 | the same over any sequence of events |
| Delivery.ReachableStatesTrack | messagebroker/messagesubscribe.go:95-128 | from a new broker, after any events: the store holds the newest min(n, capacity) accepted payloads, and every live subscription's log is a gap-free, duplicate-free run ending at the newest index, each message carrying the payload published there |
| Delivery.StepDeliversFrom | messagebroker/messagesubscribe.go:107-117 | one step keeps a subscription's log equal to the history from its start while open, and a prefix of it once closed |
| Delivery.RunDeliversFrom | messagebroker/messagesubscribe.go:95-128 | the same over any sequence of events |
| Delivery.NoGapNoDuplicate | messagebroker/messagesubscribe.go:107-117 | a subscription whose start lies in [First, First + Size], after any later events, has been sent exactly the messages from its start to the newest index, each once and in order with its published payload, or a prefix of that once its channel is closed |
| Delivery.StoppedIsTerminal | messagebroker/messagesubscribe.go:99-106 | after exit no event changes the state or is accepted |
| Scenarios.SubscribeFromOneThenClose | messagesubscribe/messagesubscribe_test.go:12-65 | capacity 2: publish two payloads, subscribe from 1, publish a third, close. The subscriber is sent (1, second) then (2, third), and its channel ends closed |
| Scenarios.SubscribeAfterWrapThenClose | messagesubscribe/messagesubscribe_test.go:67-96 | capacity 2: publish three payloads, subscribe from 2, publish a fourth, close. The subscriber is sent (2, third) then (3, fourth) |
| Scenarios.LateSubscriptionReplaysBoth | messagesubscribe/messagesubscribe_test.go:67-96 | the same run with the subscription served after the fourth publish: its backlog is (2, third) then (3, fourth), the same output |
| Scenarios.RangeFromTen | messagestore/messagestore_test.go:159-182 | each range the store's test asks of a store with first index 10 and capacity 2 has the expected result, both in the code and corrected |
| Scenarios.FromFromTen | messagestore/messagestore_test.go:184-207 | the code's From matches every expectation of the store's From test; the corrected From differs only at index 0, below First, where it returns the resident payloads |
| Scenarios.GetAfterThreePushes | messagestore/messagestore_test.go:105-114 | capacity 2 after three pushes: the corrected Get meets the test's expectations for indices -1 to 5, while the code's Get swaps the two resident payloads |
| Scenarios.FourPushesIntoThree | messagestore/messagestore_test.go:64-73 | capacity 3: after three pushes the window is all three, First 0, Last 2, nextPointer 0; after a fourth it is the last three, First 1, Last 3, nextPointer 1 |

## Left out

- Goroutines, channels and `select` are left out, and so are the 1024-slot publish buffer, blocking sends and the asynchronous send in `SubscribeFrom`. The loop is a step function over a sequence of events, so events are served in sequence order. Any interleaving of the Go program is one such sequence.
- `Unsubscribe` blocking forever once the loop has exited is liveness, not sequential behaviour. In the model, events after exit change nothing.
- A publish after the publish channel is closed is a Go panic in the publisher and is not modelled. The model has no publish after `Stop` that is accepted.
- The `sync.RWMutex` locking in the store is not modelled, since the model has a single owner. Slice aliasing between `Messages()` and the store is also left out: results are immutable sequences.
- Go `int` overflow of indices and of `first` is not modelled. Integers are unbounded.
- The broker's `size` field is not modelled. It duplicates the store's capacity.
- The `interface{}` payload is a type parameter.
- `appender` and `rfc/rfc2047` are outside this model. One is file I/O; the other is a wrapper over regular expressions, base64 and external charset tables.
- The store tests check `Get`'s error values (messagestore/messagestore_test.go:89-90 and 96) and `ExampleMessageStoreGet` checks its output on a capacity-1 store (messagestore/messagestore_test.go:209-226). The payload check at line 96 compares each expectation with itself, so the payloads expected at line 113 are never compared with `Get`'s result. `Scenarios.GetAfterThreePushes` states them.
- The code and its documentation disagree on a start index below First:
  - The doc comments (messagebroker/messagesubscribe.go:25-27 and messagestore/messagestore.go:138) promise every stored message whose index is at least the requested one. Below First, that is everything resident.
  - The code's `From(from)` is `Range(from, from + Size)`. It panics when `from < First <= from + Size` and returns nothing when `from + Size < First`.
  - The store's own From test (messagestore/messagestore_test.go:193,199) expects that empty result.
  - The corrected `From` and `Replay` follow the documentation. `Scenarios.FromFromTen` records the one test expectation they do not meet.
- MessageBroker.Replay: is the corrected backlog, not the code's. Below First they differ: with capacity 2, after publishing 10, 11, 12 (First 1), a subscription from 0 makes the code's loop panic, while `Replay` gives (1, 11) then (2, 12); when from + Size < First the code sends nothing. `StoreAsWritten.ReplayAsWritten` is the code's backlog and `StoreAsWritten.SubscribeBelowFirstPanics` shows the example.
- Live messages go to every subscription in the list, whatever its start index. This follows the code; it is not a finding.
- MessageBroker.SubscribeStep: is the corrected subscribe case, so `Step`, `Run` and every `Delivery` theorem describe the corrected loop. The code's loop is `StoreAsWritten.StepAsWritten`; it equals `Step` on every event except a subscribe below First, where it panics or sends no backlog as above. `SubscribeStep` also states the new subscription's log through `Replay` rather than spelling out its indices; `MessageBroker.ReplayEndsAtLast` and `Delivery.ReplayIsWindow` state those.

## Findings

| source | as written | input that shows it | evidently intended | confidence | as-written member | corrected member |
|---|---|---|---|---|---|---|
| messagestore/messagestore.go:113-117 | Get reads slot `offset` and never starts from `nextPointer`, so after wrapping it returns another index's payload | capacity 2, push 10, 11, 12, then Get(1) returns 12 | Get(1) returns 11, the payload with index 1 (the test at messagestore/messagestore_test.go:113 expects this) | not executed | StoreAsWritten.GetReadsStaleSlot | MessageStore.Get |
| messagestore/messagestore.go:114-117 | when `nextPointer + offset` exceeds the capacity Get indexes `msgs[offset - cap]`, a negative index, even on a store that is not full | capacity 4, push 10, 11, 12, then Get(2) panics | Get(2) returns 12 | not executed | StoreAsWritten.GetPanicsBeforeFull | MessageStore.Get |
| messagestore/messagestore.go:130-135 | Range slices from `from - first`, negative when `from` is below First and no early return applies | capacity 2, push 10, 11, 12 (First 1), then Range(0, 2) panics | Range(0, 2) returns [11], the resident part of [0, 2) | not executed | StoreAsWritten.RangePanicsBelowFirst | MessageStore.Range |
| messagestore/messagestore.go:130-135 | Range slices `[from - first : to - first]` with the low bound above the high one when `from > to` inside the window | first 10, push 1, 2, then Range(11, 10) panics | Range(11, 10) returns nothing, as the doc comment's "at most to - from elements" says | not executed | StoreAsWritten.RangePanicsOnReversedBounds | MessageStore.Range |
| messagebroker/messagesubscribe.go:112-117 | the subscribe case sends `From(s.first)`, so a subscription starting below First crashes the loop when from < First <= from + Size | capacity 2, publish 10, 11, 12 (First 1), then subscribe from 0: the loop panics | the subscriber is sent (1, 11) then (2, 12), everything resident at index 0 or later, as the doc comment at messagebroker/messagesubscribe.go:25-27 promises | not executed | StoreAsWritten.SubscribeBelowFirstPanics | MessageBroker.SubscribeStep |
| messagestore/messagestore.go:138-141 | From(from) is Range(from, from + Size), which returns nothing when `from + Size < First` although newer messages are resident, so a subscriber asking for an old index is sent no backlog | capacity 1, push 10, 11, 12 (First 2), then From(0) returns [] | From(0) returns [12], everything resident at index 0 or later; the store's own test expects the empty result, so the intent is disputed | not executed | StoreAsWritten.FromSkipsResidentHistory | MessageStore.From |
