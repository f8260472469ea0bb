# Review-list store

A model of the in-memory store behind a small review-queue server. The store
keeps named lists of review items. Each item has an index, three text fields
(document, conflict, new statement) and a status. The store also keeps one
throttle delay. HTTP handlers create, seed, delete, read, peek and close
lists and items, set the delay and report a summary. Every successful create,
seed, delete, get, peek and close hands one event to the server's broadcast
hub; setting the delay and the summary publish nothing.

The model has four modules:

- `Items` (items.dfy): the `Item` record and pure definitions over item
  sequences. These are the first open item, the open count, closing one
  position, index uniqueness, and `Evolves`, which is how a stored list may
  change. Lemmas relate closing to these definitions.
- `Seeding` (seeding.dfy): filling in defaults when a list is seeded. An
  item with index 0 gets its 1-based position and an empty status becomes
  "open". `AssignIndices` is the source's loop, proved against the
  specification function `Assigned`. Lemmas say exactly when seeding is
  refused.
- `ReviewStore` (store.dfy): `class Store` with the fields `lists`
  (a map from name to an ordered item sequence) and `delay` (whole seconds).
  It has one method per handler. Each method returns an `Outcome`, either a
  value or `Conflict`, `NotFound` or `BadRequest`. Each method that sends to
  the hub also returns the event it sends on success, and `None` on every
  error path. The object invariant `Valid` says the delay lies in 0..600 and
  every stored list has pairwise distinct indices. Every mutating method
  keeps `Valid`. `SetDelay` leaves `lists` as it was. Every method that
  modifies `lists` ensures `AllEvolve`: no list that survives the call
  gains, loses, moves or re-indexes an item, and each item either keeps its
  status or becomes "closed". That map gives at most one list per name by
  construction.
- `Session` (session.dfy): client methods that replay the review life cycle
  using only the handlers' contracts. They cover create, a seed conflict,
  delete and reuse of the name, two peeks, closing, range errors and the
  delay bounds.

The code behaves as follows where one might expect otherwise:

- A status is free text. Seeding keeps any non-empty status verbatim. Only the
  exact string "open" counts as open, both for peeking and in the summary.
- Seeding rejects more than duplicate explicit indices. It also rejects an
  explicit index that equals the position another item is assigned by default
  (`Seeding.SeedAccepted`, `Seeding.ExplicitMeetsPosition`).
- Seeding a name that was just created empty is a `Conflict`. A create
  followed by a seed of the same name therefore never succeeds
  (`Session.CreateDeleteSeed`).
- Closing by position selects by position in the list, not by the item's
  `index` field. It succeeds on an item that is already closed.
- handlers.go:199 and `send` (utils.go:41) both call `hub.broadcast(...)` as
  a function, although the hub declares `broadcast` as a channel (sse.go:12).
  The model treats each call as handing one message to the hub. A successful
  peek therefore yields the item as its event, like every other publishing
  handler.

## Model

| member | source | states |
|---|---|---|
| Items.FirstOpen | handlers.go:194-203 | the result is the lowest position whose status is exactly "open", and it is None exactly when no item is open |
| Items.OpenCount | handlers.go:44-49 | the number of items with status "open" is at most the list length, and it is zero exactly when no item is open |
| Items.CloseAtOpenCount | handlers.go:232 | closing position k lowers the open count by one if that item was open and leaves it unchanged otherwise |
| Items.CloseFirstOpen | handlers.go:239-247 | closing the first open item lowers the open count by exactly one; the next first open item lies strictly later or there is none, and none remains when it was the only open item |
| Items.CloseAtEvolves | handlers.go:232 | closing a position is an allowed evolution; the closed item keeps its index and is no longer open |
| Items.EvolvesOpenCount | handlers.go:226-246 | one evolution step never raises the open count (by `EvolvesTrans`, neither does any run of closes) |
| Items.EvolvesTrans | handlers.go:226-246 | two evolution steps compose into one, so a run of closes only ever moves items from their status to "closed" |
| Items.EvolvesDistinct | handlers.go:226-246 | closes never change indices, so indices that were pairwise distinct stay distinct |
| Seeding.Assigned | handlers.go:107-120 | filling in defaults keeps length and order, and leaves no item with index 0 or an empty status |
| Seeding.AssignIndices | handlers.go:106-120 | the seed loop succeeds exactly when the filled-in indices are pairwise distinct, and then it yields the filled-in payload |
| Seeding.AssignedIdempotent | handlers.go:108-119 | filling in defaults twice gives the same list as once |
| Seeding.PositionalIndices | handlers.go:108-111 | a payload without indices is numbered 1, 2, 3, ... in order and is never refused |
| Seeding.SeedAccepted | handlers.go:107-116 | seeding is refused exactly when two supplied indices are equal or a supplied index equals an index-less item's position |
| Seeding.ExplicitMeetsPosition | handlers.go:109-114 | a payload whose supplied index 2 meets the second item's default position is refused although no supplied index repeats |
| ReviewStore.Store.constructor | data.go:34 | a new store has no lists and a zero delay |
| ReviewStore.Store.CreateList | handlers.go:85-94 | an existing name gives Conflict and no change; otherwise exactly one empty list is added under that name, nothing else changes, and the add_list event is emitted |
| ReviewStore.Store.SeedList | handlers.go:96-124 | an existing name gives Conflict and a malformed body gives BadRequest; clashing filled-in indices give BadRequest with nothing stored; otherwise exactly the filled-in list is stored under the name, returned and emitted |
| ReviewStore.Store.DeleteList | handlers.go:136-151 | a missing name gives NotFound and no change; otherwise exactly that name is removed and the deletion is emitted |
| ReviewStore.Store.GetList | handlers.go:159-173 | the stored sequence, in stored order and with distinct indices, is returned and emitted exactly when the name exists, and NotFound otherwise |
| ReviewStore.Store.PeekOpen | handlers.go:183-203 | a missing list or a list without an open item gives NotFound; otherwise the first open item is returned and emitted; the store is not changed |
| ReviewStore.Store.CloseItem | handlers.go:216-247 | a missing list gives NotFound; a non-integer or out-of-range position gives BadRequest with no change; a valid position, or else the first open item, is set to "closed" and returned with nothing else changed; with no open item the result is NotFound |
| ReviewStore.Store.SetDelay | handlers.go:63-74 | the delay becomes exactly the given seconds when they are an integer in 0..600; otherwise BadRequest and the delay is unchanged; the lists are never touched |
| ReviewStore.Store.Meta | handlers.go:31-58 | for every list and no other name, its item count and open count, with open never above count, plus the current delay in 0..600 |

## Left out

- The broadcast hub (sse.go), keep-alive pings and the manifest handshake
  (routes.go) work only through goroutines and channels, so they are not
  modelled. A handler's publication is the event it returns. In sse.go the
  fan-out also blocks on each subscriber, which the model does not capture.
- Locking (`mu`, `delayMu`) and the `time.Sleep` in handleOpen are left out:
  every operation is atomic and the delay is only a stored number. handleOpen
  also reads the list pointer under the lock and scans it after unlocking.
  The model does not capture that race, nor the aliasing of `*List` values
  shared through the map. Lists are values.
- JSON decoding and encoding (`json.NewDecoder`, `writeJSON`, the frame
  format of `send`) are library I/O. A seed body is either decoded items or
  `Malformed`. Marshalling an `Item` cannot fail, so success always emits its
  event.
- `strconv.Atoi` becomes an already-parsed argument: `Option<int>` for the
  delay and `IndexArg` for the close position. An empty `index` query value
  counts as absent, as in the source.
- HTTP method checks (405 answers and `writeUsage` in handleOpen) belong to
  routing, as do routes.go, main.go, cors.go, index.go, test.go and
  handleIndex.
- Go's 64-bit `int` is modelled as an unbounded integer. A decodable payload
  is far shorter than 2^63, so `i + 1` never wraps. An index outside int64 is
  a decoding error, which is `Malformed`.
- `send` publishes nothing when the hub is nil (utils.go:37-39), and
  handleTimeout also logs the new delay to standard output (handlers.go:74).
  The model always returns the event and has no log. As wired, routes.go:84-100
  always passes the hub, so the nil case does not arise.
- `List.Name` is never assigned by the handlers, so a stored list is just its
  item sequence.
- The summary's lines come out in map iteration order, which is unspecified.
  The model keys them by name.
