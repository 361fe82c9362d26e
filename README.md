# GPS live-update server — Dafny model

This project models the core of a small location-telemetry backend (`server.js`):
devices `POST` readings, the server saves them and pushes each saved reading
over a WebSocket channel to the viewers whose subscription admits it; viewers
can query a device's latest reading, its history and the list of devices.

- `wrappers.dfy` — `Option` and `Result`.
- `readings.dfy` (module `Readings`) — the reading document, the ingestion
  rule (`Save`: required fields, the timestamp default, the save outcome) and
  the read queries `History`, `Latest` and `Devices` over a store that is a
  sequence of saved readings, with the database's filter, sort and limit
  written out as functions.
- `channel.dfy` (module `Channel`) — the messages on the push channel, the
  state of one connection as a value (`ClientView`: ready state, device filter,
  everything sent on it), the `message` handler rule (`Receive`), the
  recipient test (`Matches`) and one broadcast over all connections
  (`Dispatch`), with lemmas about runs of messages and runs of broadcasts.
- `server.dfy` (module `LiveServer`) — the imperative part: class
  `Connection` (fields `open`, `filter`, `outbox`, updated in place by the
  handlers) and class `Server` (the store and the registry of connections),
  whose `Broadcast` loop and `PostGps` handler are proved to move the state
  exactly as `Dispatch` and `Save` say.

Environment inputs are parameters: the clock (`now`), the identifier the
database driver assigns (`id`) and whether the database accepts a write
(`accepted`). JSON decoding is taken as done: inbound socket messages are
`Inbound` values and HTTP bodies and query strings are already-decoded
datatypes.

Where the code's behaviour is easy to misread, the model follows the code:

- A missing timestamp is tested with `||`, so any falsy value (absent, `null`,
  `0`, `""`) gets the server's clock; `GpsRequest.timestamp == None` stands for
  all of them.
- A reading that fails schema validation takes the same path as a database
  failure: HTTP 500 with `success: false` (`PostFailed`), not a client error.
- The `close` handler only logs: `server.js` itself never removes a closed
  connection from the registry (the `ws` library does), and a failed send is
  neither caught nor followed by any unregistering. The model keeps closed
  connections in the registry, and the broadcast skips them because they are
  not OPEN.
- `ws.device_id` is set to any truthy JSON value, not only a string, and is
  compared with `===` against the reading's string id; a viewer that
  subscribes with a number is therefore acknowledged but receives no update
  at all. The filter is modelled as `Option<Json>` to keep this.

## Model

| member | source | states |
|---|---|---|
| `Readings.Save` | server.js:45-56 | the save succeeds iff the device id is a non-empty string and both coordinates are present and the database accepts it; a missing field is a validation failure; a saved reading carries the request's fields unchanged, the supplied timestamp when there is one and the server clock only when there is none |
| `Readings.EffectiveLimit` | server.js:102 | the history limit is the requested one when it is a positive number; an absent, unparseable or zero limit gives 100; it is never 0 |
| `Readings.WindowOf` | server.js:103-110 | the time range applies only when both `start` and `end` are given, and is then `[start, end]` inclusive |
| `Readings.Selected` | server.js:106-113 | a reading is selected iff it is in the store, has the requested device id and lies in the range |
| `Readings.InsertNewestFirst` | server.js:114 | inserting into a newest-first sequence keeps it newest first and adds exactly that reading |
| `Readings.SortNewestFirst` | server.js:114 | the result is ordered by timestamp, newest first, and is a permutation of the input |
| `Readings.History` | server.js:100-117 | every returned reading is a stored reading of the device inside the range; the result is newest first; it holds at most `limit` readings, and all selected readings when there are fewer than `limit` |
| `Readings.HistoryHoldsNewest` | server.js:112-115 | a selected reading that the limit cuts off is no newer than any returned reading |
| `Readings.Latest` | server.js:78-91 | not-found iff the store has no reading of the device; otherwise a stored reading of the device whose timestamp is maximal among them |
| `Readings.LatestAfterSave` | server.js:45-62 | after a successful save, `latest` for that device returns a reading of that device at least as new as the saved one |
| `Readings.Devices` | server.js:127-130 | a device id is listed iff some stored reading carries it |
| `Channel.Accepted` | server.js:157-186 | a new connection is open, unfiltered, and has been sent exactly one message, the `connected` acknowledgement |
| `Channel.Receive` | server.js:160-176 | a subscribe with a truthy `device_id` replaces the filter with it and appends one `subscribed` echo; any other or malformed message changes nothing; the ready state never changes; filters stay truthy |
| `Channel.MatchesExactly` | server.js:192-194 | a connection is a recipient iff it is OPEN and either has no filter or is filtered to exactly the update's device id |
| `Channel.Dispatch` | server.js:190-198 | one broadcast keeps the number of connections, every ready state and every filter, appends exactly one `gps_update` with the reading to each matching connection and nothing to the others |
| `Channel.BroadcastsPerConnection` | server.js:190-198 | over any run of broadcasts each connection receives exactly the updates its ready state and filter admit (`UpdatesFor`), in the order they were broadcast, and keeps its ready state and filter |
| `Channel.UpdatesForFiltered` | server.js:194 | an OPEN connection filtered to a device receives exactly the updates of that device, once each and in broadcast order, and nothing else |
| `Channel.UpdatesForUnfiltered` | server.js:194 | an open unfiltered connection receives every update, one per reading, in order |
| `Channel.UpdatesForClosed` | server.js:192 | a connection that is not OPEN receives nothing |
| `Channel.LastSubscribeWins` | server.js:166-171 | after any messages the filter is the id of the last subscribe (or unchanged if there was none) and one `subscribed` acknowledgement was sent per subscribe, in order |
| `Channel.SubscribeThenDispatch` | server.js:166-167 | after subscribing to a non-empty string id, the next broadcast reaches the connection iff it is open and the update's device is that id |
| `Channel.OnlyUnfilteredViewerSeesOtherDevice` | server.js:190-198 | with one viewer subscribed to "dev1" and one unfiltered, an update for "dev2" reaches only the unfiltered one |
| `LiveServer.Connection.constructor` | server.js:157-186 | the accepted socket's state is `Accepted()` |
| `LiveServer.Connection.Send` | server.js:168-171 | `ws.send` appends exactly one message and changes nothing else |
| `LiveServer.Connection.OnMessage` | server.js:160-176 | the handler moves the socket's state exactly as `Receive` |
| `LiveServer.Connection.Close` | server.js:178-180 | closing only takes the socket out of the OPEN state; filter and sent messages stay |
| `LiveServer.Server.constructor` | server.js:17-23 | the server attaches to a store holding whatever readings the database already has, and starts with no viewer connections |
| `LiveServer.Server.Connect` | server.js:157-187 | a fresh connection joins the registry in state `Accepted()`; no other connection and not the store changes |
| `LiveServer.Server.Message` | server.js:160-176 | a message on one connection changes only that connection, as `Receive` says |
| `LiveServer.Server.Disconnect` | server.js:178-180 | a close changes only that connection's ready state |
| `LiveServer.Server.Broadcast` | server.js:190-198 | the loop over the registry leaves it exactly as `Dispatch` of its previous state |
| `LiveServer.Server.PostGps` | server.js:41-76 | on a successful save the reading is appended to the store, broadcast as `Dispatch` says and its id returned; on a failed save nothing is stored, nobody is sent anything and the error is returned |

## Left out

- Express routing, CORS, body parsing, HTTP status codes, the `/health` route and the
  response envelopes (`success`, `count`, `message`): the handlers' results are datatypes.
- MongoDB connection set-up, its error reporting and read failures (HTTP 500 on `latest`,
  `history`, `devices`): the model's store is a sequence whose reads cannot fail.
- Mongoose casting and validators beyond the required fields: a request is already decoded,
  so a non-numeric latitude or an unparseable date cannot arise.
- `JSON.parse`, `JSON.stringify`, `parseInt` and `new Date(string)`: inputs arrive decoded.
- Readings.EffectiveLimit: a negative `limit` (which `parseInt(limit) || 100` passes through
  unchanged) cannot be given, since the limit is a natural number.
- Readings.History: a negative `limit` (which the database treats as its absolute value) is not
  modelled, since the limit is a natural number.
- Readings.SortNewestFirst: readings with equal timestamps keep store order; the database leaves
  that order unspecified, so this is one permitted outcome, not the only one.
- Readings.Devices: the database returns the distinct ids as a list; the model gives the set.
- The `ws` library: how sockets enter and leave `wss.clients` and when the ready state changes;
  `Connection.Close` stands for that transition, and a closed connection stays in the registry.
- Delivery over the network: `outbox` records what was sent, not what arrived.
- Latitude, longitude and the optional measurements are carried as opaque `real` payload;
  floating point is not modelled.
- The SIGINT shutdown handler, logging and the `created_at` clock differing from the request
  clock by a few milliseconds (`createdAt` is the same `now`).
- Concurrency: the handlers are `async` and pause at every database call (`await save()`,
  the `latest`, `history` and `devices` queries), so other connections, subscribe messages and
  POSTs run during those pauses and saves can complete in another order than they started.
  The model is sequential: after the save completes, the broadcast and the response run in one
  synchronous step, so `Server.PostGps` as a single step stands for every run in which the
  events handled during the save are moved before it. A concurrent read may see the stored
  reading before it is broadcast, which the model does not show; saves that complete out of
  order are covered because `now` and `id` are free parameters of each call.
