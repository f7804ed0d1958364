# Driver dispatch hub — a Dafny model

The hub keeps a registry of connected drivers (the `drivers` Map of
`server.js`, keyed by socket id) and, when a booking is posted to `/emit`
with the event name `"new-booking"`, emits that booking to every registered
driver that is available, drives the requested vehicle type and is within
1000 km of the pickup point.

The model has five modules:

- `Geo` (geo.dfy): coordinates, the fixed 1000 km radius and the radius test
  `isWithinRadius`. The distance itself (`calculateDistance`, haversine in
  floating point) is a parameter `dist` of type `(lat1, lon1, lat2, lon2) -> real`.
  The wire format `[lon, lat]` is swapped to latitude-first, as the source does.
- `Records` (records.dfy): the reported presence, the stored record, the
  booking and the emit. Each reported field is either missing (JavaScript
  `undefined`) or a value of one fixed type, such as a string for `status`
  and `vehicleType`. `Stamp` is `{ ...data, socketId }`.
- `Registry` (registry.dfy): the iteration order of a JavaScript Map under
  `set` and `delete` (insertion order), and the list of records `forEach`
  visits.
- `Dispatch` (dispatch.dfy): `emitToRelevantDrivers` as the function `Scan`
  over a snapshot, in the source's short-circuit order, next to a
  declarative reference (`Eligible`, `Matching`, `FirstBlocker`), and the
  `/emit` event gate `EmitEndpoint`.
- `SocketServer` (server.dfy): class `Server` with the `drivers` map and its
  key order as fields. `OnDriverInfo` and `OnDisconnect` update them in place.
  `EmitToRelevantDrivers` is the `forEach` loop, proved equal to `Scan`.
  `PostEmit` is the `/emit` handler.
- `Scenarios` (scenarios.dfy): concrete runs (near and far sedans, a booking
  for another type, a location-less driver, a disconnect before dispatch).

A driver whose status and type checks pass, but whose location (or the
booking's pickup location) has no coordinates, makes the source throw inside
`forEach`. The rest of the scan is abandoned. The model keeps this as an
error outcome: `Threw(emits)` from the scan and `Failed(emits)` from `/emit`,
each carrying the emits already made. It is not a precondition.
Drivers that fail the status or type check never have their location read,
so a missing location on them is harmless (`ScanCompletesIff`).

Behaviour of the code worth knowing:

- A booking without `pickupLocation` matches nobody only when no available
  driver of its vehicle type is registered. Otherwise the first such driver
  makes the handler throw before the 200 reply is sent.
- `emitToRelevantDrivers` returns nothing, not a match count. The model
  returns the emits made.
- A `"new-booking"` post without `data` throws when the booking is
  destructured, before any emit.
- Vehicle types compare with `===`. A driver with no `vehicleType` therefore
  matches a booking with no `vehicleType`.

## Model

| member | source | states |
|---|---|---|
| `Geo.RadiusBoundary` | server.js:84-89 | a point exactly at the radius is within it; any point farther is not (`<=`, boundary included) |
| `Registry.Upserted` | server.js:39 | after `set`, the key is present, no other key is added, every existing key keeps its position, a new key goes last, and keys stay distinct |
| `Registry.Without` | server.js:46 | after `delete`, exactly the deleted key is gone from the iteration order |
| `Registry.WithoutRemovesSlot` | server.js:46 | deleting a present key removes its one slot and keeps the relative order of all other keys |
| `Registry.WithoutAbsent` | server.js:46 | deleting an absent key leaves the order unchanged |
| `Registry.WithoutDistinct` | server.js:46 | deleting keeps the keys of the order distinct |
| `Registry.ReAddMovesToEnd` | server.js:39-46 | a key deleted and then set again is last in iteration order |
| `Registry.SnapshotAfterSet` | server.js:39 | a report replaces a present driver's record in place in the iteration, or appends a new driver's record at the end |
| `Registry.SnapshotAfterDelete` | server.js:46 | a disconnect removes exactly that driver's record from the iteration |
| `Geo.IsWithinRadius` | server.js:84-89 | `isWithinRadius`: both positions are read as `[lon, lat]`, passed to the distance latitude first, and compared with `<=` |
| `Dispatch.Eligible` | server.js:68-75 | the three checks: status `"available"`, vehicle type strictly equal to the booking's, and both coordinates present with the distance at most 1000 km |
| `Dispatch.DispatchRadiusBoundary` | server.js:71-75 | with the fixed 1000 km radius, a candidate exactly 1000 km from the pickup receives the booking and one farther away does not |
| `Dispatch.Scan` | server.js:64-81 | the scan makes no more emits than there are drivers visited |
| `Dispatch.ScanSound` | server.js:67-78 | every emit is a `"new-booking"` carrying the unchanged booking, addressed to the socket id of a visited driver that is available, of the booking's vehicle type and within 1000 km |
| `Dispatch.MatchingMembers` | server.js:68-76 | the reference match: a driver is in it if and only if it is among the visited drivers and passes all three checks |
| `Dispatch.Notify` | server.js:77 | one emit per matched driver, in order, addressed to its socket id, with the booking unchanged |
| `Dispatch.FirstBlocker` | server.js:71-73 | the first driver whose coordinate read throws; every driver before it reads safely |
| `Dispatch.ScanIsMatchingPrefix` | server.js:67-80 | the scan emits exactly to the matching drivers in iteration order; it completes if no driver throws, and otherwise stops with the emits for the drivers before the first throwing one |
| `Dispatch.ScanCompletesIff` | server.js:68-73 | the scan completes if and only if no available driver of the booking's type lacks coordinates (or the booking lacks a pickup point while such a driver exists) |
| `Dispatch.EachEligibleNotifiedOnce` | server.js:67-78 | over distinct socket ids, a completed scan emits exactly once to each eligible driver and never to any other |
| `Dispatch.EmitEndpoint` | server.js:51-61 | only the event `"new-booking"` dispatches; any other event emits nothing and replies 200 "Event emitted"; a missing booking throws with no emits; otherwise the emits are the scan's and the reply is 200 exactly when the scan completes |
| `SocketServer.Server.constructor` | server.js:27 | the registry starts empty |
| `SocketServer.Server.OnDriverInfo` | server.js:37-41 | the record of the socket is fully replaced: it holds exactly the reported fields and the socket's own id, whatever `socketId` the payload carried; every other record is unchanged, and the key order is `Upserted` (position kept); the registry invariant is preserved |
| `SocketServer.Server.OnDisconnect` | server.js:44-47 | the socket's record is removed and nothing else changes; disconnecting an absent socket is a no-op |
| `SocketServer.Server.EmitToRelevantDrivers` | server.js:64-81 | the `forEach` loop produces exactly the outcome of `Scan` over the registry in iteration order, and does not modify the registry |
| `SocketServer.Server.PostEmit` | server.js:51-61 | the handler's result is `EmitEndpoint` over the current registry |
| `SocketServer.Server.SnapshotIds` | server.js:39 | every record iterated carries the socket id it is filed under, so the socket ids seen by dispatch are distinct |
| `SocketServer.Server.DispatchReachesEachEligibleOnce` | server.js:64-81 | when dispatch completes, each registered eligible socket gets exactly one `"new-booking"`, every other registered socket none, and no unregistered socket any |
| `Scenarios.NearSedanOnly` | server.js:67-80 | of a sedan at the pickup and a sedan beyond 1000 km, only the first receives the booking |
| `Scenarios.NoSuvAmongSedans` | server.js:67-80 | a booking for another vehicle type reaches no driver, even one at the pickup |
| `Scenarios.UnavailableWithoutLocationIsSkipped` | server.js:68-73 | an unavailable driver without location is skipped without error |
| `Scenarios.AvailableWithoutLocationAborts` | server.js:68-73 | an available driver of the right type without location aborts the scan before the next driver |
| `Scenarios.FarSedanAloneGetsNothing` | server.js:51-81 | with only a sedan beyond 1000 km registered, a posted booking reaches nobody and the reply is 200 |
| `Scenarios.ConnectBothDropNear` | server.js:37-47 | two reports then one disconnect leave only the second socket, filed under its own id, first in iteration order |
| `Scenarios.DisconnectedDriverMissesBooking` | server.js:37-81 | after the near sedan disconnects, the booking reaches nobody and the handler still replies 200 |

## Left out

- The haversine arithmetic of `calculateDistance` (server.js:92-102): floating-point trigonometry; the distance is a parameter. NaN distances (from non-numeric coordinates) are not modelled either: `dist` returns a real number.
- `status` and `vehicleType` are modelled only as missing or a string. `null`, numbers, booleans and objects are not modelled, although `===` tells them apart (a `null` vehicle type does not match a missing one, and `1` does not match `"1"`).
- Coordinates that are present but not a pair of numbers (an empty array, a string): the model has either a `[lon, lat]` pair of reals or no coordinates.
- Express setup, CORS, JSON body parsing and the response plumbing (server.js:3-24, 51-61): only the event gate and the 200 "Event emitted" reply are modelled. What Express does with an exception escaping the handler is not modelled; `Failed` marks that case.
- The Socket.IO transport, connection handshake and `io.to(...).emit` delivery (server.js:5, 19-24, 34-35, 77): an emit is an entry in the returned list.
- The Redis pub/sub adapter (server.js:8-9, 29-32): a foreign library about relaying between processes; each process's registry is modelled alone.
- Logging and `server.listen` / `PORT` handling (server.js:35, 40, 45, 55, 66, 78, 104-108).
- Concurrency: the source runs on one event-loop thread, so each handler runs to completion before the next.
