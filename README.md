# Chat room join handler — a Dafny model

This project models the `POST /participants` handler of a small chat-room API,
through which a participant joins the chat room. The handler reads the `name` field of
the JSON body. It answers 422 unless `name` is a non-empty string. It reads the
clock once. It looks the name up in the `participants` collection and answers
409 if it is there. Otherwise it inserts `{ name, lastStatus }` and then appends
the status message `{ from: name, to: "Todos", text: "entra na sala...",
type: "status", time }` to the `messages` collection. A failure of the lookup
or of the participant insert answers 500. A failure of the message insert is
caught, but as written the 201 has already been sent by then (see Findings).

Files:

- `body.dfy` (module `Body`): the JavaScript value found at `name`
  (`undefined`, `null`, booleans, numbers, strings, arrays, objects), its
  truthiness, `typeof`, and the guard `!name || typeof(name) !== "string"`.
- `store.dfy` (module `Store`): the two MongoDB collections as sequences of
  documents in natural order, taken here as insertion order. `findOne` is the
  first match in that order. `Directory` reads
  the participants collection as a `map<string, int>` from name to `lastStatus`.
  Lemmas relate uniqueness of names, per-name counts, `findOne` and the directory.
- `app.dfy` (module `App`): the handler. `JoinEffect` is the pure transition of
  both collections; `JoinStatusAsWritten` and `JoinStatus` are the answers of the
  code as written and as evidently intended. Class `ChatServer` holds the two
  collections as fields; its methods `JoinAsWritten` and `Join` run the handler
  step by step and are proved against those functions. `Run` handles requests one
  after another, for the sequential invariants.

The participants collection is a sequence, not a map: MongoDB does not stop two
documents from sharing a name, so "one document per name" is an invariant the
handler has to keep, and the model proves it does (`Unique`, preserved by every
join). `Directory` is the map view of that sequence.

The clock reading (`Date.now()`) is the parameter `now`. The `HH:mm:ss`
formatting is the parameter `format: int -> string`, applied to that same
reading. Whether each of the three store calls fails is the parameter
`StoreFaults`.

The code and the design description of the system disagree on atomicity. The
description says a join stores both the participant and its notice, or reports
a failure and leaves no partial state. The code has no rollback: when the
message insert fails, the participant stays stored. As written, it even answers
201 in that case (see Findings). The model follows the code.

## Model

| member | source | states |
|---|---|---|
| Body.TypeOf | src/app.js:22 | `typeof` yields `"string"` exactly for string values |
| Body.RejectedIff | src/app.js:22-24 | the guard rejects a value exactly when it is not a non-empty string: missing, null, booleans, numbers, arrays, objects and `""` all answer 422 |
| Store.FindOne | src/app.js:30 | `findOne({ name })` finds nothing exactly when no document has that name; what it finds is a document of the collection with that name |
| Store.CountPositive | src/app.js:30-32 | a name has a positive document count exactly when it occurs in the collection |
| Store.CountAppend | src/app.js:35 | `insertOne` adds one to the count of the inserted name and leaves every other count alone |
| Store.UniqueIffAtMostOne | src/app.js:30-35 | the collection has no duplicate names exactly when every name has at most one document |
| Store.DirectoryKeys | src/app.js:30-35 | the names of the map view are exactly the names in the collection |
| Store.FindOneAgreesWithDirectory | src/app.js:30-33 | for every collection and name, `findOne` returns the document whose `lastStatus` the map view holds for that name, or nothing when the name is absent |
| Store.DirectoryAppend | src/app.js:35 | inserting a document under a new name extends the map view by exactly that entry; other entries are unchanged |
| Store.UniqueDirectorySize | src/app.js:30-35 | with unique names, the map view has one entry per document |
| App.UniqueAppend | src/app.js:30-35 | appending a document whose name is not present keeps names unique |
| App.JoinEffect | src/app.js:19-45 | a request changes the collections only when the name is a non-empty string, absent, and the lookup and participant insert succeed; then participants gains exactly `{name, lastStatus: now}` at the end, and messages gains exactly the notice with time `format(now)` at the end unless the message insert fails; otherwise nothing changes; uniqueness of names is preserved |
| App.JoinStatusAsWritten | src/app.js:22-44 | the answer as written: 422 exactly for an invalid name, 409 exactly when the lookup succeeds and finds the name, 201 exactly when the participant insert is reached and succeeds (whatever the message insert does), 500 otherwise |
| App.JoinStatus | src/app.js:37-39 | the corrected answer: as above, except that 201 also requires the message insert to succeed and a failed message insert answers 500 |
| App.AsWrittenCreatedWithoutNotice | src/app.js:37-39 | as written, with a fresh name and a failing message insert, the answer is 201 while the participant is stored and the message log is unchanged |
| App.CreatedIffNoticeLogged | src/app.js:35-41 | corrected: the answer is 201 exactly when the message log grew, and then the participant and its notice were both appended, from the same clock reading |
| App.FailedNoticeKeepsParticipant | src/app.js:35-41 | corrected: a failed message insert after a successful participant insert answers 500, and the participant stays stored without a notice |
| App.ErrorsLeaveStoreUnchanged | src/app.js:22-44 | as written, every answer other than 201 (422, 409 and each 500) leaves both collections unchanged |
| App.RunKeepsInvariants | src/app.js:30-37 | over any sequence of requests handled one at a time, names stay unique and both collections only grow at their ends |
| App.JoinTwice | src/app.js:30-35 | on any collection, even one holding duplicates of other names, two joins under one fresh name with no failure answer 201 then 409; the second changes nothing, the name has exactly one document, and the map view gains exactly that name with the first clock reading |
| App.ChatServer.JoinAsWritten | src/app.js:19-45 | the handler as written, step by step: its answer is `JoinStatusAsWritten`, its new state is `JoinEffect` of the old one, uniqueness is kept, and on 201 the map view gains exactly `name := now` |
| App.ChatServer.Join | src/app.js:19-45 | the corrected handler: its answer is `JoinStatus`, its new state is `JoinEffect` of the old one, uniqueness is kept, and on 201 the map view gains `name := now` and the log gains exactly the notice |

## Findings

| source | as written | input that shows it | evidently intended | confidence | as-written member | corrected member |
|---|---|---|---|---|---|---|
| src/app.js:37-39 | `.then(res.sendStatus(201))` calls `res.sendStatus(201)` while the `.then` is being set up, so 201 is sent before the message insert settles; its `.catch` (line 39) then calls `res.status(500).send(...)` on a response already sent; Express throws "headers already sent" inside that promise callback, nothing handles the rejection, and on Node 15 and later an unhandled rejection ends the process by default | a fresh non-empty name with the lookup and the participant insert succeeding and the message insert failing: the answer is 201, the participant is stored, and no join notice is logged | `.then(() => res.sendStatus(201))`: answer 201 only once the notice is stored, 500 otherwise | high; not executed | App.AsWrittenCreatedWithoutNotice | App.CreatedIffNoticeLogged |

## Left out

- Express setup, CORS, the JSON body parser, `dotenv` and `listen` (src/app.js:1-10, 47-48): HTTP and process plumbing. The model starts from the value at `name` in the decoded body.
- The MongoDB client and its connection (src/app.js:12-16): the collections are in-memory sequences, and each store call's failure is an explicit flag. A request that arrives before the connection is made (`db` still undefined) is not modelled.
- The `dayjs(...).format("HH:mm:ss")` call (src/app.js:27): it is the parameter `format`, applied to the same clock reading as `lastStatus`.
- The text of a 500 answer (`err.message`), and the "headers already sent" error that the message insert's `.catch` (src/app.js:39) throws when it tries to answer after the 201; left unhandled, that rejection ends the process on Node 15 and later. Only status codes and the collections are modelled, not the process's lifetime.
- The `_id` field that `insertOne` adds to documents: nothing in the handler reads it.
- Concurrency: two requests for the same name that interleave between `findOne` and `insertOne` could both insert. Each request is modelled as one sequential step, so the uniqueness invariant holds only for sequential runs.
- Atomicity across the two inserts: the code never rolls back the participant when the message insert fails, and the model keeps that (`App.FailedNoticeKeepsParticipant`).
- Refreshing presence, evicting idle participants, sending messages and listing messages: the shown source has no code for them.
