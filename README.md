# storage-messenger, modelled in Dafny

StorageMessenger lets browser windows of one origin exchange events
through the shared `localStorage`. Windows never talk to each other directly.
Each window's **Transport** writes a *listener record*, a key
`{"tag":"<LISTENER_TAG>","targetId":"<id>"}` whose value is a timestamp. A timer
re-stamps the record every `ITEM_TTL_MS` (400 ms). To send, a window writes
one *message record* `{"messageId":..,"tag":"<MESSAGE_TAG>","targetId":..,"data":..}`
for every other live listener. When the store signals a change, a window
picks up the messages whose key mentions its own id, hands their data on and
deletes them. Entries older than the TTL are garbage and can be removed by
any window. An **EventHub** puts named events on top of this. `on` and
`off` manage `(event, callback)` registrations, and `trigger` sends
`{event, params}`. Received data goes to every listener registered for the event.

The model covers:

- the entries (`Item`);
- the transport;
- the event hub;
- the in-memory store of the test suite (`FakeLocalStorage`), on which the
  behaviour is pinned down.

Every pass over the store goes through `forEachFilteredItem_`. That is a scan
from the last key index down to 0, which may delete the entry it is looking at.
Each pass is specified by a function over the key list it starts from:

- `RemovePass` for removal passes;
- `Deliveries` for picking up own messages;
- `Recipients` for sending.

The imperative scans are proved against those functions, and the laws in
`transport_laws.dfy` and `event_hub.dfy` say what they mean: what is removed
and what stays, that a second pass finds nothing, that a send reaches every
other live listener, and that a message once written is delivered with its
data to the window it names and dispatched to that window's listeners for the
event.

Files:

- `options.dfy`: `Option`.
- `seqs.dfy`: order-preserving filtering.
- `strings.dfy`: the JavaScript `indexOf`, `parseInt(_, 10)` and decimal
  rendering the protocol relies on.
- `records.dfy`: the tags and the key layout, with both round trips.
- `items.dfy`: `Item` and the TTL.
- `storage.dfy`: `FakeLocalStorage`, as a class over a key list and a map.
- `transport.dfy`: the `Transport` class and the pass functions.
- `transport_laws.dfy`: properties of the passes.
- `event_hub.dfy`: the `EventHub` class.

Six behaviours of the code differ from the written design of the system.
The model follows the code in each case:

- `removeGarbage` removes *every* dead entry: dead listener records, dead
  messages whatever their target, and this window's own listener record if it
  has aged. It does not remove only dead listeners and their messages.
- `off` removes *all* matching registrations, not one.
- A storage event with neither key nor new value (a full clear) runs the
  delivery pass like any other event.
- The keep-alive timer re-stamps the listener record every `ITEM_TTL_MS`
  (`setInterval(.., ITEM_TTL_MS)` at src/core.js:325-327, with the TTL of
  src/core.js:110), not at an interval below the TTL. Since `isDead` tests
  `now - stamp > ITEM_TTL_MS` strictly, a record stays live only while every
  tick lands on time; one late tick lets other windows see it as dead.
  `TransportLaws.RegisteredListenerSurvives` states the margin: a record
  survives a garbage pass at most `ITEM_TTL_MS` after its stamp.
- A key that carries a tag but does not parse makes `JSON.parse` throw
  (src/core.js:370 and 418). The throw ends the pass and escapes from `send`
  and from the deferred storage handler; the entry is not skipped. The model
  stops the pass there (`Transports.DeliveriesAbort`,
  `Transports.RecipientsAbort`) and reports it as `completed == false`.
- Garbage collection does not reap the messages of a dead listener. A
  message addressed to a window whose listener record has died stays until
  the message itself is older than the TTL (`TransportLaws.GarbageCollected`:
  exactly the entries that are not dead remain).

A further consequence of classifying keys by substring search is proved as
`TransportLaws.PayloadMentioningIdIsOwn`. A message to another window whose
payload mentions this window's id is picked up, and deleted, by this window.

## Model

| member | source | states |
|---|---|---|
| Strings.IndexOfFrom | src/core.js:537 | `indexOf` returns the first index at or after the start where the text occurs; it returns -1 exactly when it occurs nowhere there |
| Strings.Contains | src/core.js:553-555 | the `indexOf(..) !== -1` test holds exactly when the text occurs at some index |
| Strings.ContainsAfter | src/core.js:553-555 | a key still contains a text when other text is put before it |
| Strings.ContainsBefore | src/core.js:553-555 | a key still contains a text when other text is put after it |
| Strings.NatToString | src/core.js:359 | the timestamp as written to the store is a non-empty run of decimal digits without a leading zero |
| Strings.ParseIntNatToString | src/core.js:561-563 | `parseInt(_, 10)` reads a written timestamp back as the same number |
| Strings.TrimStart | src/core.js:562 | the leading white space `parseInt` skips (all ECMAScript white space and line terminators) is a prefix made only of such characters, and what is left does not start with one |
| Strings.ParseInt | src/core.js:562 | `parseInt(_, 10)` reads a number only from text that holds a decimal digit; otherwise it gives `NaN` |
| Strings.ParseSigned | src/core.js:562 | after the white space, a sign and digits are read only from text that holds a decimal digit |
| Strings.ParseIntSkipsSpace | src/core.js:562 | a white space character in front of the text does not change what `parseInt` reads |
| Strings.DigitRun | src/core.js:562 | `parseInt` reads the longest run of digits; the character after it is not a digit |
| Records.Encode | src/core.js:354-378 | the key `JSON.stringify` writes for a record is the text of an object, starting with `{` and ending with `}` |
| Records.Decode | src/core.js:418 | whatever `JSON.parse` reads as one of the protocol's records has ids without escapes and non-empty data text without raw control characters |
| Records.MessageIdOfKey | src/core.js:369-378 | the message id is the first field of a message key, so keys written with different ids differ |
| Records.DecodeListenerEncode | src/core.js:354-360 | the key of a listener record parses back to the same record |
| Records.DecodeMessageEncode | src/core.js:369-379 | the key of a message record parses back to the same record |
| Records.DecodeListenerOfMessage | src/core.js:369-379 | a message key never parses as a listener record |
| Records.DecodeEncode | src/core.js:418 | `JSON.parse` of any key the transport writes gives back the record it was written from |
| Records.EncodeDecode | src/core.js:370 | a key that parses is exactly the key written for the record it parses to, and that record is well formed |
| Records.EncodeDecodeListener | src/core.js:354-360 | a key that parses as a listener record is the key written for it |
| Records.EncodeDecodeMessage | src/core.js:369-379 | a key that parses as a message record is the key written for it |
| Records.EncodeContains | src/core.js:24-40 | every key the transport writes contains its target id and its record's tag, and a message key contains its message id |
| Items.Item.ContainsMessage | src/core.js:536-538 | the key contains the message tag exactly when the tag occurs in it at some index |
| Items.Item.ContainsMessageListener | src/core.js:544-546 | the key contains the listener tag exactly when the tag occurs in it at some index |
| Items.Item.ContainsTargetId | src/core.js:553-555 | the key contains the id exactly when the id occurs in it at some index |
| Items.Item.IsDead | src/core.js:561-564 | an entry can be dead only when its value holds a decimal digit: a value that `parseInt` reads as `NaN` never ages |
| Items.Item.GetKey | src/core.js:570-572 | the key returned is the one the entry was built with |
| Items.StampedIsDead | src/core.js:561-564 | an entry stamped with `now` at time `stamp` is dead exactly when more than `ITEM_TTL_MS` = 400 has passed |
| Items.DeadStaysDead | src/core.js:561-564 | without a new stamp, a dead entry stays dead as time goes on |
| Items.NotANumberNeverDead | src/core.js:561-564 | an entry whose value `parseInt` reads as `NaN` is never dead, since comparisons with `NaN` are false |
| Items.RecordClassification | src/core.js:536-555 | a listener key is classified as a listener and a message key as a message, and both mention their target id |
| FakeStorage.SetItemEffect | test/unit/spec-helper/fake-local-storage.js:18-24 | `setItem` keeps keys distinct and in step with the map; it gives the key its value, changes no other key, keeps an existing key in place and appends a new one |
| FakeStorage.RemoveItemEffect | test/unit/spec-helper/fake-local-storage.js:31-40 | `removeItem` keeps the store well formed, makes the key absent and leaves the other keys and their values |
| FakeStorage.RemoveAbsent | test/unit/spec-helper/fake-local-storage.js:31-40 | removing a key that is not stored changes nothing, so deletion is idempotent |
| FakeStorage.RemoveAtIndex | test/unit/spec-helper/fake-local-storage.js:31-40 | removing the key at index `i` leaves the keys below `i` in place, which makes a backward scan safe |
| FakeStorage.ReplayGet | test/unit/spec-helper/fake-local-storage.js:18-40 | after any sequence of calls, `getItem(k)` gives the last value set for `k` unless a later `removeItem(k)` came, and the store stays well formed |
| FakeStorage.ReplaySplit | test/unit/spec-helper/fake-local-storage.js:18-40 | replaying calls one after the other is replaying them in order |
| FakeStorage.Store.Create | test/unit/spec-helper/fake-local-storage.js:7-15 | the keys are those of the initial entries, in order, with their values; the store is well formed |
| FakeStorage.Store.SetItem | test/unit/spec-helper/fake-local-storage.js:18-24 | the new contents are the old ones with the key set, and `length` tracks the key list |
| FakeStorage.Store.GetItem | test/unit/spec-helper/fake-local-storage.js:25-27 | a value is found exactly for a stored key |
| FakeStorage.Store.Key | test/unit/spec-helper/fake-local-storage.js:28-30 | a key is found exactly for an index below `length`; it is the key at that index in insertion order, and it is a stored key |
| FakeStorage.Store.RemoveItem | test/unit/spec-helper/fake-local-storage.js:31-40 | the backward splice loop leaves the old contents with the key removed |
| Transports.IsOwnMessage | src/core.js:429-432 | every message record addressed to this window is classified as its own message |
| Transports.IsOtherActiveMessageListener | src/core.js:441-444 | an entry a send writes to is never this window's own listener, never one of its own messages and never garbage at the same moment |
| Transports.IsOwnMessageListener | src/core.js:453-456 | this window's own listener record is classified as its own listener |
| Transports.IsGarbage | src/core.js:464-466 | an entry is garbage exactly when its value reads as a time more than the TTL ago, whatever its key |
| Transports.MessageKeysClassified | src/core.js:369-378 | a message key carries the message tag and its target id |
| Transports.Deliveries | src/core.js:385-388 | the pass accounts for every key it sees: the keys it keeps and the data it hands on number as many as the keys |
| Transports.SchedulesHandling | src/core.js:302-304 | a storage event without a key (a full clear) and any event with a new value lead to the own-message pass |
| Transports.Recipients | src/core.js:396-400 | a send pass writes at most one message per stored key |
| Transports.MessageKeys | src/core.js:369-379 | a send writes exactly one message key per target |
| Transports.Transport.constructor | src/core.js:233-238 | a new transport has its store and id, no data listener and no timer |
| Transports.Transport.Create | src/core.js:245-264 | creation registers the window's listener with the current stamp, starts one keep-alive timer, then runs a garbage pass |
| Transports.Transport.SetTransportDataListener | src/core.js:280-282 | the data listener is set and nothing else changes |
| Transports.Transport.StoreMessageListener | src/core.js:354-360 | the listener record of the id is written with the current stamp |
| Transports.Transport.RegisterOwnMessageListener | src/core.js:323-328 | the own listener record is written and one more keep-alive timer runs, its handle held |
| Transports.Transport.KeepAliveTick | src/core.js:325-327 | while a timer runs, a tick re-stamps the own listener record; otherwise nothing changes |
| Transports.Transport.DeregisterOwnMessageListener | src/core.js:335-339 | every entry classified as this window's listener is removed and the held timer stops |
| Transports.Transport.Destroy | src/core.js:288-293 | destroy has the store effect of deregistration |
| Transports.Transport.RemoveGarbage | src/core.js:344-347 | the store afterwards is the garbage pass over it: every dead entry goes |
| Transports.Transport.Remove | src/core.js:407-409 | the entry's key is removed from the store |
| Transports.Transport.RemoveFiltered | src/core.js:508-514 | a removal pass leaves the store cut down to the keys the filter rejects, in order, with their values |
| Transports.Transport.ScanRemoving | src/core.js:485-496 | the backward scan that removes selected entries ends with exactly the unselected keys of the starting store |
| Transports.Transport.RemoveAt | src/core.js:491-494 | one scan turn removes the entry at the current index exactly when the filter accepts it, extending the filtered suffix by one |
| Transports.Transport.InvokeTransportListener | src/core.js:473-477 | the data reaches the listener exactly when one is set |
| Transports.Transport.HandleMessage | src/core.js:417-421 | a key that parses hands its `data` to the listener and is removed; a key that does not parse changes nothing |
| Transports.Transport.HandleOwnMessage | src/core.js:385-388 | the own-message pass hands on the data of the own messages in scan order and removes them; the rest stays (with `TransportLaws.DeliveriesIncludes` and `TransportLaws.OwnMessageHandedOn`: every stored message to this window has its data handed on) |
| Transports.Transport.StorageListener | src/core.js:299-309 | an event with a key but no new value is ignored; any other runs the own-message pass |
| Transports.Transport.ScanDelivering | src/core.js:485-496 | the backward scan with `handleMessage_` does what the delivery pass of the starting keys says |
| Transports.Transport.DeliverAt | src/core.js:491-494 | one scan turn extends the delivery pass by the key at the current index |
| Transports.Transport.DeliverIfSelected | src/core.js:509-513 | an unselected entry is skipped; a selected one is handled as `handleMessage_` does |
| Transports.Transport.StoreMessage | src/core.js:369-379 | a listener key that parses gets one message to its target id with a fresh id and the current stamp; a key that does not parse changes nothing |
| Transports.Transport.Send | src/core.js:271-273 | a send appends one fresh message key per other live listener, in scan order, stamped now; old values stay |
| Transports.Transport.ScanStoring | src/core.js:485-496 | the backward scan with `storeMessage_` writes what the send pass of the starting keys says |
| Transports.Transport.StoreAt | src/core.js:491-494 | one scan turn extends the send pass by the key at the current index |
| Transports.Transport.StoreIfSelected | src/core.js:509-513 | an unselected entry is skipped; a selected one gets a message as `storeMessage_` writes it |
| Transports.RemovalStep | src/core.js:491-494 | removing the selected entry at the scan index extends the filtered suffix by one |
| Transports.ScanPosition | src/core.js:490-493 | the key at the scan index is still the starting key there, whatever the scan removed above it |
| Transports.DeliveryStep | src/core.js:491-494 | one visit removes a hit and hands its data on, and a parse failure stops the pass |
| Transports.DeliveriesEnd | src/core.js:491 | where the delivery scan stops, at index 0 or at a parse failure, what it has done is the pass over all starting keys |
| Transports.SendStep | src/core.js:491-494 | one visit of a send pass adds the hit's target or stops at a failure |
| Transports.KeepingOf | src/core.js:407-409 | a store whose values are the starting values is the starting store cut down to its keys |
| Transports.DeliveriesAbort | src/core.js:418 | once `JSON.parse` throws, the keys below are left and nothing more is delivered |
| Transports.RecipientsAbort | src/core.js:370 | once `JSON.parse` throws, nothing more is written |
| Transports.ListenerVisitHits | src/core.js:441-444 | a live other listener yields a well-formed id that is not the sender's own |
| Transports.RecipientsTargets | src/core.js:396-400 | a send never targets the sender |
| Transports.MessageKeyFresh | src/core.js:372 | a message under a fresh id is a new key: not stored before and not written earlier in the same send |
| Transports.SendWriteStep | src/core.js:378 | one message written by a send is appended to the key list and leaves every starting entry's value alone |
| TransportLaws.RemovePassEffect | src/core.js:508-514 | after a removal pass a key stays exactly when the filter rejects its entry; values are kept and the store is well formed |
| TransportLaws.GarbageCollected | src/core.js:344-347 | after garbage collection exactly the entries that are not dead remain |
| TransportLaws.RemovePassIdempotent | src/core.js:344-347 | a second removal pass with the same filter changes nothing |
| TransportLaws.RegisteredListenerSurvives | src/core.js:245-264 | the listener record written at creation survives every garbage pass run at most the TTL after its stamp, the one `create` runs at once among them |
| TransportLaws.FreshStampSurvives | src/core.js:561-564 | an entry whose stamp reads as a time at most the TTL before a garbage pass is not removed by it |
| TransportLaws.DeregisterRemovesListener | src/core.js:335-339 | after deregistration the own listener record is gone |
| TransportLaws.DeliveriesCompleted | src/core.js:385-388 | the delivery pass runs to the end exactly when no selected key fails to parse |
| TransportLaws.DeliveriesKeepMisses | src/core.js:385-388 | a complete delivery pass keeps exactly the keys it does not hand on, in order, and hands one datum per removed key |
| TransportLaws.DeliveriesIdle | src/core.js:385-388 | a pass that selects nothing changes nothing and hands nothing on |
| TransportLaws.OwnMessagesHandled | src/core.js:429-432 | after a complete pass no entry classified as an own message remains, and every other entry does |
| TransportLaws.SecondDeliveryIdle | src/core.js:385-388 | a second own-message pass straight after a complete one finds nothing |
| TransportLaws.OwnMessageDelivered | src/core.js:417-432 | a message written to this window is picked up and hands on exactly its data |
| TransportLaws.PayloadMentioningIdIsOwn | src/core.js:429-432 | a message to another window whose payload mentions this window's id is also picked up by this window |
| TransportLaws.RecipientsCompleted | src/core.js:396-400 | the send pass runs to the end exactly when no selected listener key fails to parse |
| TransportLaws.RecipientsCount | src/core.js:396-400 | a complete send writes as many messages as there are other live listeners |
| TransportLaws.RecipientsIncludes | src/core.js:396-400 | a complete send addresses every other live listener |
| TransportLaws.RecipientsIdle | src/core.js:396-400 | with no other live listener, a send writes nothing |
| TransportLaws.SendSkipsSelf | src/core.js:441-444 | a send never addresses the sending window |
| TransportLaws.SendReachesListener | src/core.js:441-444 | a listener stamped within the TTL, whose key does not mention the sender, is addressed by a complete send |
| TransportLaws.LiveListenerVisited | src/core.js:441-444 | a live listener record of another window is selected by a send, and its key parses to that window's id |
| TransportLaws.SendThenDeliver | src/core.js:369-432 | every message a send writes to a live listener is picked up by that window with the sent data |
| TransportLaws.DeliveriesIncludes | src/core.js:385-388 | a complete own-message pass hands on the data of every key it picks up |
| TransportLaws.DeliveredKey | src/core.js:385-388 | a stored key the pass picks up with some data has that data handed on |
| TransportLaws.OwnMessageHandedOn | src/core.js:417-432 | a stored message to this window has its data handed on by a complete own-message pass |
| TransportLaws.DeliveredKeys | src/core.js:385-388 | every stored key of a send that the pass picks up for the receiver has its data handed on |
| TransportLaws.SentMessagesReceived | src/core.js:369-432 | every message a send wrote to the receiver that is still stored when the receiver's pass completes has the sent data handed on |
| EventHubs.EncodeEvent | src/core.js:171-175 | the text of well-formed event data is payload text a message can carry: non-empty, without raw control characters |
| EventHubs.DecodeEncodeEvent | src/core.js:170-175 | the `{event, params}` object the hub sends reads back as the same event and parameters |
| EventHubs.Dispatch | src/core.js:216-222 | an event makes at most one call per registration |
| EventHubs.EventHub.constructor | src/core.js:144-147 | a new hub has its transport and no registrations |
| EventHubs.EventHub.On | src/core.js:184-189 | the registration is appended to the list |
| EventHubs.EventHub.Off | src/core.js:198-208 | the backward splice loop leaves exactly the registrations that are not the given pair, in order |
| EventHubs.EventHub.TransportDataListener | src/core.js:216-222 | data naming an event calls every listener registered for it in registration order, with the parameters; other data calls nothing |
| EventHubs.EventHub.Trigger | src/core.js:170-176 | a trigger sends the encoded event through the transport: one message per other live listener, stamped now, with every earlier entry's value unchanged |
| EventHubs.DispatchCalls | src/core.js:216-222 | a call happens exactly for a callback registered for the event, and it carries the event's parameters |
| EventHubs.OffRemovesRegistration | src/core.js:198-208 | after `off`, the pair is no longer registered, every other registration is, and the callback is not called for the event |
| EventHubs.OnThenOff | src/core.js:184-208 | `on` then `off` with a fresh pair leaves the registrations as they were |
| EventHubs.TriggerThenDispatch | src/core.js:170-222 | what a trigger sends reaches every other live window, and that window's hub reads the same event and parameters from it |

## Left out

- Browser events and timers are not modelled as events. `DOM.on`/`DOM.off`
  subscriptions and the `unload` hook are left out. The keep-alive
  `setInterval` is a count of running timers plus an explicit `KeepAliveTick`
  step; `clearInterval` stops the timer the handle holds
  (`DeregisterOwnMessageListener`). `storageListener`'s `setTimeout(_, 0)` is modelled as handling at once.
- `guid()` is not part of this model. Fresh ids are a parameter: distinct,
  free of quotes and found in no stored key. The target id is a parameter
  of `Create`.
- The clock `+new Date()` is a parameter `now`. It is the same for every
  entry visited in one pass.
- JSON is modelled only as the layout of the protocol's own keys and of
  `{event, params}`. A key that is valid JSON but not in that layout counts as
  a parse failure. Ids and event names are assumed free of quotes,
  backslashes and control characters, which `JSON.stringify` would escape;
  escaping is not modelled. `data` and `params` are opaque JSON text.
- Records.Decode: it reads data text that is non-empty and free of raw
  control characters as a record even when that text is not valid JSON
  (`JSON.parse` would throw), and it fails on ids holding a JSON escape
  that `JSON.parse` would accept. Neither kind of key is written by the
  protocol.
- FakeStorage.Store.Create: JavaScript's `for…in` lists integer-like keys
  first, in ascending order, and other keys in insertion order; the model
  keeps the order of the given entries. The protocol's keys are JSON
  objects, never integer-like, so the two orders agree for them.
- Transports.Transport.Create: the registration and the garbage pass that
  follows it use one clock reading; `TransportLaws.RegisteredListenerSurvives`
  covers any pass up to the TTL later.
- Transports.Transport.HandleMessage: exceptions thrown by the transport data
  listener or by an event callback are not modelled. The model assumes they
  return. In JavaScript they would end the scan before `remove_`.
- EventHubs.EventHub.TransportDataListener: `undefined` data, which would make
  `data.event` throw, is modelled as calling nothing. So is data that is not an
  event object.
- A key without a value reads as the empty string. Both make `parseInt` give
  `NaN`; in a well-formed store this case does not arise.
- Timestamps are unbounded naturals. JavaScript number precision is not
  modelled.
- `EventHub.create`, `Transport.create`'s listener binding, `noConflict`,
  the polyfills and the build and
  integration-test files are not part of this model.
- Concurrency between windows is left out. Every operation runs on the store
  alone, and change notifications are delivered by calling `StorageListener`.
- Callbacks are opaque identifiers. A call is recorded as the callback and its
  argument, not run.
