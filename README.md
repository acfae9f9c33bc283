# Session counter protocol

A model of the websocket handler in `index.js` of a minimal real-time counter server. Each connection keeps a session slot. Each client message is one of `init`, `inc` and `dec`. `init` resumes a session or creates one. `inc` and `dec` change that session's count in the shared "counter" collection and reply with the new value.

Files:
- `wrappers.dfy`: the `Option` datatype. It stands for JavaScript's `null` and for an absent field.
- `protocol.dfy` (module `Protocol`): the protocol as a pure state machine, plus the properties proved about it.
  - Types: parsed messages, responses, and a `State` made of the slot and the collection, which is abstracted as `map<string, int>`.
  - `Step`: handling one message.
  - `Run`: a sequence of non-`init` messages on one connection, so the session slot stays fixed.
  - `RunShared`: interleaved non-`init` messages from several connections that share the collection. Each connection's slot stays fixed.
- `server.dfy` (module `Server`): the handler as the source runs it.
  - `Store` is a class holding the collection, with `findOne`, `insertOne` and `findOneAndUpdate`.
  - `Connection` is a class whose `sessionId` field is the handler's closure variable.
  - `Connection.Handle` changes the slot and the store step by step, in the source's order. It is proved to have exactly the effect `Protocol.Step` gives.

Modelling choices:
- An exception thrown inside the handler is a `None` reply. Any state change made before the throw is kept.
- The id `nanoid()` would return is a parameter, `freshId`. It is required to be absent from the collection, but only on the path that draws it.
- The `sessionId` field of `init` is `Option<string>`. The truthiness test treats absent, null and `""` as "no session id".

Two behaviours of `index.js` worth noting:
- Every `init` overwrites the slot, so it is not single-assignment (index.js:41, 45; `InitRebinds`).
- `init` with an id that has no record assigns the slot before the lookup throws. So nothing is sent, and later `inc`/`dec` are dropped (index.js:41-43, 64-69; `InitUnknownSession`).

## Model

| member | source | states |
|---|---|---|
| `Protocol.Step` | index.js:30-98 | Handling any message adds no key except the fresh id and removes none. It changes no record except the one in the new slot. Any reply carries that session's stored count, and a `ready` names the session. |
| `Protocol.Adjust` | index.js:59-96 | `inc`/`dec` keep the slot and the key set, and any reply is the stored count after the change. |
| `Protocol.AdjustBeforeInit` | index.js:59-81 | While the slot is unset, `inc` and `dec` send nothing and change nothing. |
| `Protocol.InitCreates` | index.js:44-56 | `init` with no or falsy session id does four things. It inserts the fresh id with count 0. It binds the slot to that id. It replies `Ready(0, id)`. It leaves every other record unchanged. |
| `Protocol.InitResumes` | index.js:40-56 | `init` with an existing id replies `Ready(stored count, id)` and binds the slot. It leaves the collection untouched. |
| `Protocol.InitUnknownSession` | index.js:40-94 | `init` with an id that has no record binds the slot, sends nothing and changes nothing. After it, `inc`/`dec` send nothing and create no record. |
| `Protocol.InitRebinds` | index.js:40-45 | Every `init` overwrites the slot with the id it resolves, whether or not the lookup then succeeds. |
| `Protocol.AdjustDelta` | index.js:63-94 | On a bound, existing session, `inc` sets the count to old + 1 and replies `Value(old + 1)`. `dec` does the same with old - 1. The slot and all other records are unchanged. |
| `Protocol.IgnoredMessages` | index.js:31-37 | Unparsable frames and unknown `type` values send nothing and change neither the slot nor the collection. |
| `Protocol.Run` | index.js:30-98 | A run of non-`init` messages gives one reply slot per message and keeps the session slot and the set of keys. |
| `Protocol.NetCount` | index.js:63-94 | On a bound session, any interleaving of `inc`/`dec` leaves the count at start + #inc - #dec and touches no other record. Each `inc`/`dec` is answered with the running total at that point. Other messages get no answer. |
| `Protocol.NetIsIncMinusDec` | index.js:63-94 | The net change `Net` of a message sequence is its number of `inc` messages minus its number of `dec` messages. |
| `Protocol.FreshSessionNetCount` | index.js:38-94 | From a fresh session, n `inc` and m `dec` in any order (n and m counted with multisets) leave the count at n - m. Every reply is the running total. All earlier records are unchanged. |
| `Protocol.RunShared` | index.js:63-94 | Interleaved `inc`/`dec` from several connections on one collection keep its set of keys. |
| `Protocol.SharedNetCount` | index.js:63-94 | No lost update: after any interleaving across connections, each record equals its start value plus the net count of the messages sent on connections bound to it. |
| `Server.Store.FindOne` | index.js:43 | Returns a count exactly when a record exists, and then it is the stored count. |
| `Server.Store.InsertOne` | index.js:48 | Adds the new record, with the given count, and nothing else. |
| `Server.Store.FindOneAndUpdate` | index.js:64-68 | For an existing record: adds delta in one step and returns the value after the update. Without a record (no upsert): changes nothing and returns nothing. |
| `Server.Connection.constructor` | index.js:27-28 | A new connection starts with the slot unset. |
| `Server.Connection.Handle` | index.js:30-98 | Its new slot, new collection and reply are exactly those `Protocol.Step` gives for the old state. |
| `Server.Connection.Update` | index.js:59-94 | The shared `inc`/`dec` body has exactly the effect `Protocol.Adjust` gives. |
| `Server.TwoClients` | index.js:30-98 | A client creates a session and sends `inc`, `dec`, `dec`. It receives `ready 0`, `value 1`, `value 0`, `value -1`. A second connection resuming that session receives `ready -1`. |

## Left out

- Static file hosting, the HTTP server and `listen` (index.js:10-15, 101-105): I/O plumbing.
- `dotenv` and environment reads (index.js:1, 17, 101): configuration only.
- The Mongo client connection, the lazy `dbPromise` and `getDbCollection` (index.js:17-25): a foreign library, replaced by the map-valued `Store`. Store outages are not modelled. This covers a rejected connection promise and network errors. The only failures modelled are the missing-record lookups.
- `JSON.parse` and `JSON.stringify`, and the text format of frames (index.js:32, 50-56): library calls. Messages arrive already classified.
  - A `null` parse result throws when `data.type` is read; that case is folded into `Malformed`.
  - Any other parsed value whose `type` is none of the three is `Other`. This includes numbers, strings, booleans and arrays, where `type` is `undefined`.
  - Both have the same effect: no reply and no change.
- Non-string `sessionId` values (numbers, booleans, objects) in `init`: only strings and absence are modelled.
- `nanoid` randomness (index.js:45): a caller-supplied `freshId` that is not yet in the collection.
- Async interleaving: each handled message is one atomic step. The model does not cover two messages on one connection completing out of order, or a slot change between an `await` and the insert or reply that reads it afterwards. For example, two id-less `init` frames could lead to the second id being inserted twice and the first never. Atomicity of `findOneAndUpdate` across connections is assumed and underlies `SharedNetCount`.
- Duplicate inserts: `InsertOne` requires the id to be new. The source has no unique index and would add a second document.
- Integer width: `count` is an unbounded `int`. In the source it is a BSON int32 that `$inc` widens, read back as a JavaScript Number, which is exact only up to 2^53. Counts that large are not reachable in practice.
- Thrown errors outside the handler: the message callback is an `async` function without a `catch` (index.js:30), so each throw becomes a promise rejection that nothing handles. The model treats a throw as a dropped reply on a connection that stays open. That is how Node 14 and earlier behave. From Node 15 on, an unhandled rejection ends the process by default, which would stop the server for every connection.
- Mongo driver version: `findOneAndUpdate` (index.js:64-68, 83-87) is modelled the way the 3.x driver behaves, which the version 3 connect options at index.js:18-19 suggest. `returnOriginal: false` puts the updated document in `doc.value`, and `doc.value` is null when no record matches. From driver 4.0 the option is ignored, so the reply would be the count before the change. From 6.0 `doc.value` is undefined, so every `inc`/`dec` would throw after the update.
