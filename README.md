# Cart presence and location: a Dafny model

This project models the Khatakhat cart-tracking backend and part of its admin dashboard. Mobile carts report GPS positions over HTTP (`POST /update`). The backend keeps a `carts` table with each cart's presence (`isOnline`, `lastSeen`) and last location, and appends every accepted report to `location_history`. It announces changes over socket.io. Presence also changes from two other places:

- the socket service: `cart-connect`, `disconnect`, and a stale check every minute that demotes carts not seen for five minutes;
- `CartStatusService`: a monitor every 30 s that demotes carts not seen for one minute.

Admins manage the table through the `carts` routes, behind `authMiddleware` and `adminOnly`. The dashboard keeps its copy of the list up to date from the broadcasts.

Modules, by source file:

| module | source |
|---|---|
| `Js`, `Events`, `Http` | JavaScript values, socket.io emissions, HTTP responses (shared vocabulary) |
| `CartModel` | backend/src/models/Cart.js |
| `HistoryModel` | backend/src/models/LocationHistory.js, and the history query of backend/src/routes/location.js |
| `Store` | the two tables and their auto-increment counters, as class `Db` |
| `Auth` | backend/src/middleware/auth.js |
| `LocationRoute` | backend/src/routes/location.js |
| `Presence`, `Sweep` | the demotion rule and the save-and-broadcast loop shared by backend/src/services/cartStatusService.js and backend/src/services/socketService.js |
| `StatusService` | backend/src/services/cartStatusService.js, as class `CartStatusService` |
| `SocketService` | backend/src/services/socketService.js, as class `SocketServer` |
| `CartsRoute` | backend/src/routes/carts.js |
| `Dashboard` | dashboard/src/components/Dashboard.jsx, lines 43-53 and 76-108 |
| `Mirror` | how the dashboard's list follows the table across broadcasts |

How the model is built:

- **Handlers.** Each handler is one atomic method on a `Db` and an `Io`, given the time `now`. A store failure is a `StoreFault` parameter: the query fails, or the handler's `k`-th save fails, counted from 0. A fault at a save the handler does not make has no effect. Whatever the steps before the failing call did stays done.
- **Sweeps.** A sweep's result is stated through the specification functions `Found` (the rows the query selects), `Demote` (the table after the first `n` of them are saved offline) and `Notices` (the broadcasts for them). With a healthy store the result is the same as `SweepRows`.
- **Serialisers.** `toJSON` serialisers are functions on objects, which are maps from property names to values. Each has a round-trip lemma back to the row.
- **Dashboard.** The reducers are functions on the list of objects. `Mirror` proves which sequences of broadcasts keep the list equal to the table in `cartId`, `isOnline` and `lastSeen`, and which do not.

Behaviour of the code the model keeps:

- `disconnect` marks the cart offline even when another socket has bound the same cart since.
- `cart-connect` does not check `isActive`.
- A report for a cart that is unknown or inactive is refused with 401 by the middleware, not 404.
- The two sweeps keep their two thresholds, 60 s and 5 min.
- Presence is broadcast under two event names, `cart-status-changed` and `cart-status-change`.
- Carts can be deleted, and deleting one deletes its history (`DELETE /:cartId`).

## Model

| member | source | states |
|---|---|---|
| CartModel.ToJson | backend/src/models/Cart.js:89-117 | `toJSON` output has no `password` and none of the four flat location keys, and always has `lastLocation`. |
| CartModel.ToJsonShape | backend/src/models/Cart.js:89-117 | `toJSON` copies every other property unchanged and adds no other key. `lastLocation` is the nested object when both coordinates are non-null, and null otherwise. |
| CartModel.Serialized | backend/src/routes/carts.js:123-132 | A cart as a client receives it has no `password` and no flat location key, and always has `lastLocation`. That it gives the row back is stated by `CartModel.SerializedRoundTrip`. |
| CartModel.SerializedCopies | backend/src/models/Cart.js:90 | Every column other than the password and the flat location columns reaches the client with the row's value. |
| CartModel.SerializedFields | backend/src/models/Cart.js:90 | A serialised row shows the row's `id`, `cartId`, `name`, `description`, `isActive`, `isOnline` and `lastSeen`. |
| CartModel.SerializedLocation | backend/src/models/Cart.js:93-106 | At row level, `lastLocation` holds the four column values exactly when both coordinates are set. Otherwise it is null, even when accuracy or timestamp are set. |
| CartModel.SerializedRoundTrip | backend/src/models/Cart.js:89-117 | A well-formed row is recovered from its serialised form plus the dropped password, so `toJSON` loses nothing else. |
| CartModel.FromJsonReads | backend/src/models/Cart.js:89-117 | Any object with the serialised properties of a well-formed row is read back as that row. |
| CartModel.ExcludeIsRedundant | backend/src/models/Cart.js:114 | Serialising a row loaded with the password gives the same output as serialising one loaded without it. |
| CartModel.PublicList | backend/src/routes/carts.js:10-13 | The list answer has one serialised element per row, in table order. No element has a password or a flat location column, and each element of a well-formed row gives the row back, password aside. |
| CartModel.IndexOf | backend/src/routes/carts.js:65 | `findOne` by cart id returns the position of a row with that id, or reports that no row has it. |
| CartModel.IndexOfUnique | backend/src/models/Cart.js:13-18 | With unique cart ids, looking up a row's id finds that row. |
| CartModel.NewCart | backend/src/models/Cart.js:23-60 | A created row takes the schema defaults: it is well formed, active, offline, never seen and without a location, and holds the given id, key, password, name and description. How it is served is stated by `CartsRoute.NewCartDefaults`. |
| CartModel.HashOnCreate | backend/src/models/Cart.js:67-72 | A non-empty password is stored only as its hash. An empty one, which `POST /` refuses before creating, is left empty. |
| CartModel.HashOnUpdate | backend/src/models/Cart.js:73-78 | The password is hashed again exactly when the new value differs from the stored one, and otherwise kept. What an update does to the password is stated by `CartsRoute.PatchedPassword`. |
| HistoryModel.Inserted | backend/src/routes/location.js:62-67 | `LocationHistory.create` stores the given cart id, coordinates and accuracy, with the insertion time as `timestamp`. How the row is served is stated by `HistoryModel.InsertedServed`. |
| HistoryModel.InsertedServed | backend/src/models/LocationHistory.js:25-31 | A history row created without a timestamp is served with the insertion time as `timestamp`, its cart id, and its coordinates under `location`, a missing accuracy as null. |
| HistoryModel.ToJson | backend/src/models/LocationHistory.js:45-59 | `toJSON` nests latitude, longitude and accuracy under `location` and removes the flat keys. Every other property passes through. |
| HistoryModel.Serialized | backend/src/models/LocationHistory.js:45-59 | A history row as a client receives it has `location` and no flat coordinate key, and shows the row's id, cart id and timestamp. That it gives the row back is stated by `HistoryModel.SerializedRoundTrip`. |
| HistoryModel.SerializedList | backend/src/routes/location.js:120 | The history answer has one element per row, in order. Each nests the coordinates under `location`, has no flat coordinate key, and gives its row back. |
| HistoryModel.SerializedRoundTrip | backend/src/models/LocationHistory.js:45-59 | `id`, `cartId`, `timestamp` and the nested coordinates determine the row: it is recovered from its serialised form. |
| HistoryModel.Matches | backend/src/routes/location.js:106-113 | The `where` object: only rows of the cart match. Without bounds every row of the cart matches, and a window whose `startDate` is after its `endDate` matches nothing. Which rows the query keeps is stated by `HistoryModel.Filter` and `HistoryModel.FilterCounts`. |
| HistoryModel.Filter | backend/src/routes/location.js:106-112 | Keeps only rows that match the cart and the time window, and keeps every matching row. How often each row is kept is stated by `HistoryModel.FilterCounts`, and the table order by `HistoryModel.FilterAppend`. |
| HistoryModel.FilterCounts | backend/src/routes/location.js:106-114 | A matching row is kept as often as it occurs in the table, and any other row not at all. |
| HistoryModel.FilterAppend | backend/src/routes/location.js:106-114 | Filtering two consecutive parts of the table gives the two filtered parts in that order, so the kept rows stay in table order. |
| HistoryModel.Insert | backend/src/routes/location.js:116 | Inserting into a newest-first list keeps it newest first and adds exactly that row. |
| HistoryModel.InsertFront | backend/src/routes/location.js:116 | A row at least as new as the head of a newest-first list can go in front, and the list stays newest first. |
| HistoryModel.InsertBehind | backend/src/routes/location.js:116 | An older row goes behind the head: the list stays newest first and gains exactly that row. |
| HistoryModel.SortNewestFirst | backend/src/routes/location.js:116 | The result is newest first and a permutation of the input. |
| HistoryModel.Query | backend/src/routes/location.js:114-118 | At most `limit` rows are returned, and fewer only when fewer rows match. Which rows, and in what order, is stated by `HistoryModel.QueryMatches` and `HistoryModel.QueryKeepsNewest`. |
| HistoryModel.QueryMatches | backend/src/routes/location.js:104-118 | Every returned row is in the table, belongs to the cart and lies in the window. The rows are newest first, and there are at most `limit` of them. |
| HistoryModel.QueryKeepsNewest | backend/src/routes/location.js:114-118 | The returned rows plus the rows the limit dropped are exactly the matching rows, and no dropped row is newer than a returned one. |
| HistoryModel.SplitSorted | backend/src/routes/location.js:116-117 | Cutting a newest-first list splits its rows and leaves the newer ones in front. |
| Events.EventName | backend/src/services/socketService.js:38 | The three kinds of broadcast go out under three different names, `cart-status-changed` (location.js:51, cartStatusService.js:70), `cart-status-change` (socketService.js:38, 73, 115) and `location-update` (location.js:72), each exactly for its kind. |
| Events.Payload | backend/src/routes/location.js:51-82 | Every broadcast object carries the cart id and its `isOnline`. Only `cart-status-change` (socketService.js:38-42, 73-77, 115-119) omits `name`. `location-update` carries `timestamp` and the coordinates and accuracy under `location` instead of `lastSeen`. |
| Events.Io.Emit | backend/src/routes/location.js:72 | `io.emit` appends one broadcast to the log of emissions and changes nothing else. |
| Events.Io.EmitTo | backend/src/services/socketService.js:91 | `socket.emit` appends one reply addressed to that socket only. |
| Store.Db.constructor | backend/src/models/Cart.js:8-18 | An empty store satisfies the table invariants. |
| Store.Db.SaveCart | backend/src/routes/location.js:45 | `cart.save()` replaces that one row and keeps the invariants. |
| Store.Db.AppendHistory | backend/src/routes/location.js:62-67 | `LocationHistory.create` appends one row with the next id. |
| Store.Db.AddCart | backend/src/routes/carts.js:37-41 | `Cart.create` appends one row with the next key, keeps the invariants and touches nothing else. |
| Store.Db.RemoveCart | backend/src/routes/carts.js:109 | `cart.destroy()` removes exactly that row, keeps the invariants and leaves the history alone. |
| Store.Db.SetHistory | backend/src/routes/carts.js:106 | The bulk `LocationHistory.destroy` leaves exactly the given rows, keeps the invariants and leaves the carts alone. |
| Auth.ReplaceFirst | backend/src/middleware/auth.js:6 | `replace` with a string pattern gives the string unchanged or with one pattern replaced: one pattern shorter and one replacement longer. Which occurrence is stated by `Auth.ReplaceFirstAt` and `Auth.ReplaceFirstNone`. |
| Auth.Token | backend/src/middleware/auth.js:6 | There is a token exactly when there is an `Authorization` header, and it is never longer than the header. `Auth.BearerToken` states what it is for the usual header. |
| Auth.OccursShift | backend/src/middleware/auth.js:6 | Dropping the first character of a string shifts every occurrence of a pattern one place left. |
| Auth.ReplaceFirstAt | backend/src/middleware/auth.js:6 | `replace` with a string pattern replaces the first occurrence only. |
| Auth.ReplaceFirstNone | backend/src/middleware/auth.js:6 | With no occurrence, the header is unchanged. |
| Auth.BearerToken | backend/src/middleware/auth.js:6 | The header `Bearer <t>` yields the token `t`. |
| Auth.ActiveCart | backend/src/middleware/auth.js:16-21 | The lookup returns an active cart with that id, and returns one whenever one exists. |
| Auth.Authenticate | backend/src/middleware/auth.js:4-41 | No token or an empty one gives 401 "No token provided". Every refusal is a 401. A cart token passes exactly for an existing active cart, which becomes `req.cart`. An admin token passes without a lookup. Any other type, or a failed verification, is refused. |
| Auth.AdminOnly | backend/src/middleware/auth.js:43-48 | Passes exactly when `userType` is "admin", and otherwise answers 403 "Admin access required". |
| Auth.AdminGate | backend/src/routes/carts.js:8 | The two middlewares in sequence pass exactly the admin requests, and refuse an authenticated cart with 403. |
| LocationRoute.Screen | backend/src/routes/location.js:12-32 | Gives 403 exactly for non-cart callers, and 400 exactly for a falsy latitude or longitude, 0 included. A report is accepted exactly when both coordinates are non-zero numbers and a truthy accuracy is a number. |
| LocationRoute.StoredAccuracy | backend/src/routes/location.js:40 | A falsy accuracy, 0 included, is stored as null. Any other accuracy is stored as given. |
| LocationRoute.Ingest | backend/src/routes/location.js:35-45 | After a report the cart is online and seen at `now`, with the reported coordinates. Its location timestamp is `now` and a falsy accuracy is stored as null. No other column changes, and the row stays well formed. |
| LocationRoute.IngestEvents | backend/src/routes/location.js:47-83 | One `cart-status-changed` with `isOnline: true` exactly when the cart was offline, then one `location-update` with `isOnline: true`. |
| LocationRoute.FoundInTable | backend/src/routes/location.js:24 | The cart the middleware loaded is found again by its id. |
| LocationRoute.UpdateLocation | backend/src/routes/location.js:9-98 | A refused report changes no table, counter or event. An accepted one replaces the cart's row by `Ingest`, then appends one history row whose falsy accuracy is null, emits `IngestEvents` and answers with the stored location. A failing `cart.save()` answers 500 with nothing changed or emitted. A failing `LocationHistory.create` answers 500 after the row is saved and a cart that was offline is announced, with no history row and no `location-update`. |
| LocationRoute.CameOnline | backend/src/routes/location.js:47-59 | The status broadcast after the save is sent exactly when the cart was offline, as `cart-status-changed` with `isOnline: true` and the new `lastSeen`. |
| LocationRoute.SaveIngested | backend/src/routes/location.js:35-59 | The loaded row is replaced by `Ingest` of it, keeping the table invariants and leaving the history alone, and `CameOnline` is emitted. |
| LocationRoute.IndexOfInTable | backend/src/routes/location.js:24 | With unique ids, the row found for the loaded cart is that cart. |
| LocationRoute.IngestKeepsTable | backend/src/routes/location.js:38-45 | Saving an ingested row keeps every table invariant. |
| LocationRoute.IngestReported | backend/src/routes/location.js:85-93 | The response's `location` equals the `lastLocation` every later reader of the row sees. |
| LocationRoute.IngestSurvivesSweep | backend/src/routes/location.js:42-43 | A cart that has just reported is not demoted by a sweep whose cutoff is not after the report. |
| LocationRoute.GetHistory | backend/src/routes/location.js:101-125 | Builds the `where` object from the optional bounds, with a default limit of 100, and answers with the serialised query result. It answers 500 when the query fails or when `limit` is negative. |
| LocationRoute.HistoryAnswer | backend/src/routes/location.js:104-118 | The history answer holds only that cart's rows inside `[startDate, endDate]`, newest first, at most `limit` (default 100). |
| Presence.Expired | backend/src/services/cartStatusService.js:48-55 | Only an online cart that has been seen can be selected: a null `lastSeen` never compares below the cutoff (also socketService.js:104-109). Which rows the query selects is stated by `Presence.FoundMembers`. |
| Presence.Settle | backend/src/services/cartStatusService.js:64-66 | A sweep leaves no row expired, and only flips `isOnline` of an expired one. |
| Presence.SweepRows | backend/src/services/cartStatusService.js:45-66 | After a full sweep no cart is online with `lastSeen < cutoff`. Rows that were not expired are unchanged, and expired ones differ only in `isOnline`. |
| Presence.Found | backend/src/services/cartStatusService.js:48-55 | The query returns no more rows than the table holds. |
| Presence.FoundMembers | backend/src/services/cartStatusService.js:48-55 | The query selects exactly the rows that are online with `lastSeen` before the cutoff. |
| Presence.FoundCounts | backend/src/services/cartStatusService.js:48-55 | Each selected row is found as often as it occurs, and no other row is found. |
| Presence.NothingFoundAfterSweep | backend/src/services/cartStatusService.js:48-55 | After a full sweep a second query at the same cutoff selects nothing. |
| Presence.SweepCoversEarlierCutoffs | backend/src/services/socketService.js:102-109 | Nor does a query with an earlier cutoff select anything. |
| Presence.SweepIdempotent | backend/src/services/cartStatusService.js:64-66 | Sweeping twice at the same cutoff is sweeping once. |
| Presence.SweepKeepsTable | backend/src/services/cartStatusService.js:64-66 | A sweep keeps every table invariant. |
| Presence.Completed | backend/src/services/cartStatusService.js:64-87 | Gives how many selected carts were saved before a failure: all of them when healthy, none when the query fails, and `k` when the `k`-th save fails. |
| Presence.FirstIdsMembers | backend/src/services/cartStatusService.js:64 | The ids already handled are exactly those of the first `n` selected carts. |
| Presence.Demote | backend/src/services/cartStatusService.js:64-66 | Demoting keeps the length of the table. |
| Presence.DemoteAt | backend/src/services/cartStatusService.js:64-66 | Each row of a demoted table is the row demoted on its own. |
| Presence.DemoteEach | backend/src/services/cartStatusService.js:64-66 | The same, for every row at once. |
| Presence.DemoteStep | backend/src/services/cartStatusService.js:64-66 | Saving the next selected cart offline adds its id to the handled ids. |
| Presence.DemoteAll | backend/src/services/cartStatusService.js:64-66 | After every selected cart is demoted, the table is `SweepRows`. |
| Presence.DemoteNone | backend/src/services/cartStatusService.js:85-87 | With nothing handled, the table is unchanged. |
| Presence.DemoteKeepsTable | backend/src/services/cartStatusService.js:64-66 | A partly finished sweep keeps every table invariant. |
| Presence.FoundUnique | backend/src/models/Cart.js:16 | The selected carts have distinct ids. |
| Presence.FoundFresh | backend/src/services/cartStatusService.js:64 | No selected cart is met twice by the loop. |
| Sweep.Notice | backend/src/services/cartStatusService.js:69-76 | A demotion broadcast is about the demoted cart, offline, with its stored `lastSeen`. It is `cart-status-changed` exactly when the monitor sends it, and `cart-status-change` from the stale check (socketService.js:115-119). What the client reads is stated by `Sweep.NoticePayload`. |
| Sweep.NoticePayload | backend/src/services/cartStatusService.js:69-76 | A demotion broadcast carries the cart id, `isOnline: false` and the stored `lastSeen`. The monitor sends it as `cart-status-changed` with the name, and the stale check as `cart-status-change` without it. |
| Sweep.Notices | backend/src/services/cartStatusService.js:64-76 | One broadcast per demoted cart. |
| Sweep.NoticesAt | backend/src/services/cartStatusService.js:64-76 | The `i`-th broadcast is about the `i`-th selected cart. |
| Sweep.SelectedStillThere | backend/src/services/cartStatusService.js:64-66 | While the loop runs, the next selected cart is still in the table. |
| Sweep.SweepStep | backend/src/services/cartStatusService.js:65-66 | Saving the next selected cart offline moves the table from `n` handled carts to `n + 1`. |
| Sweep.SaveOne | backend/src/services/cartStatusService.js:65-76 | One loop iteration saves one cart offline and emits one broadcast. |
| Sweep.SaveOffline | backend/src/services/cartStatusService.js:64-84 | The loop demotes the selected carts in order. It broadcasts once for each, and a failing save stops it. |
| StatusService.CartStatusService.constructor | backend/src/services/cartStatusService.js:9-12 | The service starts with its `io` and no interval. |
| StatusService.CartStatusService.CheckInactiveCarts | backend/src/services/cartStatusService.js:42-88 | The selected carts are demoted and announced, in order. With a healthy store, no cart is online with `lastSeen < now - 60000` afterwards. A failing query changes nothing, and no error escapes. |
| StatusService.CartStatusService.Start | backend/src/services/cartStatusService.js:14-32 | Sweeps once immediately, then registers the interval and sets `intervalId`. |
| StatusService.CartStatusService.Stop | backend/src/services/cartStatusService.js:34-40 | Clears the interval and resets `intervalId`, and is a no-op when not started. |
| StatusService.SecondCheckIsQuiet | backend/src/services/cartStatusService.js:48-76 | After a healthy check, a second check at the same `now` selects nothing. Whatever its store faults, it leaves the table as it is and emits nothing. |
| SocketService.Identify | backend/src/services/socketService.js:14-16 | How the payload is read: `undefined` or `null` throws, a falsy `cartId` is missing, and a non-empty string is a claimed id. |
| SocketService.ConnectError | backend/src/services/socketService.js:12-49 | Gives "Cart ID required" exactly for a missing id, and "Cart not found" exactly for an unknown one. There is no error exactly when a known cart connects on a healthy store. |
| SocketService.ConnectIgnoresIsActive | backend/src/services/socketService.js:21 | The answer to `cart-connect` does not depend on any cart's `isActive`. |
| SocketService.IndexOfSameIds | backend/src/services/socketService.js:21 | Tables with the same ids in the same order find an id at the same position. |
| SocketService.PresenceKeepsTable | backend/src/services/socketService.js:29-31 | Setting a row's presence keeps every table invariant. |
| SocketService.ConnectedNotStale | backend/src/services/socketService.js:102-107 | A cart that has just connected is not stale for five minutes. |
| SocketService.SocketServer.constructor | backend/src/services/socketService.js:5 | `connectedCarts` starts empty. |
| SocketService.SocketServer.CartConnect | backend/src/services/socketService.js:12-49 | Errors go to that socket only and change nothing. On success the cart is online and seen at `now`, and `connectedCarts[cartId]` is this socket, so the last connect wins. `cart-status-change` with `isOnline: true` is broadcast, even if the cart was already online. |
| SocketService.SocketServer.Disconnect | backend/src/services/socketService.js:58-83 | A socket that never identified changes nothing. Otherwise its cart's binding is removed, even if another socket has bound the cart since. An existing cart is then set offline, seen at `now`, and one offline `cart-status-change` is broadcast. |
| SocketService.SocketServer.GetAllCarts | backend/src/services/socketService.js:86-96 | The table without passwords goes to the asking socket only. A failed query sends "Failed to fetch carts". |
| SocketService.SocketServer.CheckStale | backend/src/services/socketService.js:100-124 | Every cart online with `lastSeen < now - 300000` is set offline, keeping its `lastSeen`, and one `cart-status-change` is broadcast for each. |
| CartsRoute.Summary | backend/src/routes/carts.js:44-52 | The create and update answers carry `cartId`, `name`, `description` and `isActive`, and no password. |
| CartsRoute.Purged | backend/src/routes/carts.js:106 | Destroying a cart's history never adds rows. |
| CartsRoute.PurgedMembers | backend/src/routes/carts.js:106 | Exactly the rows of that cart are removed. |
| CartsRoute.PurgedKeepsHistory | backend/src/routes/carts.js:106 | The remaining history keeps its id invariants. |
| CartsRoute.RemoveKeepsTable | backend/src/routes/carts.js:109 | Removing one cart keeps the table invariants. |
| CartsRoute.AppendKeepsTable | backend/src/routes/carts.js:37-42 | Adding a cart with a fresh id and the next key keeps the table invariants, uniqueness included. |
| CartsRoute.NewCartDefaults | backend/src/models/Cart.js:24-39 | A new cart is served without a password and with a null `lastLocation`. |
| CartsRoute.OrEmpty | backend/src/routes/carts.js:40-41 | A falsy name or description becomes "", and a truthy one is kept when it is a string. |
| CartsRoute.Patched | backend/src/routes/carts.js:72-77 | Only the given fields change, and a password changes only when truthy, through the `beforeUpdate` hook. The cart id, key, presence and location never change. A value of the wrong type makes the save fail. |
| CartsRoute.PatchedKeepsTable | backend/src/routes/carts.js:72-77 | An update keeps every table invariant. |
| CartsRoute.PatchedEmpty | backend/src/routes/carts.js:72-75 | An empty body changes nothing. |
| CartsRoute.PatchedPassword | backend/src/models/Cart.js:73-78 | The stored password changes only for a truthy new password that differs from the stored one. |
| CartsRoute.AssignFields | backend/src/routes/carts.js:72-75 | The field-by-field assignments give exactly `Patched` of the loaded row, and they are refused exactly when `Patched` refuses. |
| CartsRoute.ListCarts | backend/src/routes/carts.js:8-18 | Behind the admin gate, answers the whole table without passwords, or 500 when the query fails. |
| CartsRoute.CreateCart | backend/src/routes/carts.js:21-57 | A missing id or password gives 400. A taken id gives 400. A failing lookup or a non-string cart id gives 500 "Server error". So does every other refusal of a free id: a failing insert, or a password, name or description the columns do not take. Success adds exactly one row with the defaults, the hashed password and name and description defaulting to "", and answers 201 with the summary. Every refusal leaves the table unchanged. |
| CartsRoute.UpdateCart | backend/src/routes/carts.js:60-92 | An unknown cart gives 404 with no change. Success saves `Patched` of the row and answers with its summary. |
| CartsRoute.DeleteCart | backend/src/routes/carts.js:95-116 | An unknown cart gives 404 with no change. Otherwise the cart's history is purged, then the cart is removed. A failure of the second step leaves the history purged. |
| CartsRoute.GetCart | backend/src/routes/carts.js:119-137 | For any authenticated caller, answers the serialised cart, or 404. |
| CartsRoute.DeleteKeepsOthers | backend/src/routes/carts.js:106-109 | After a delete, the carts left are exactly the other carts, and the history left is exactly the other carts' history. |
| Dashboard.UpdateCartLocation | dashboard/src/components/Dashboard.jsx:76-94 | The list keeps its length. |
| Dashboard.UpdateCartStatus | dashboard/src/components/Dashboard.jsx:96-108 | The list keeps its length. |
| Dashboard.LocationUpdateAt | dashboard/src/components/Dashboard.jsx:76-93 | Only entries with the event's cart id change. They get `lastLocation` from the event's location and timestamp, `lastSeen` equal to the timestamp, and the event's `isOnline`. Every other property is kept. |
| Dashboard.StatusUpdateAt | dashboard/src/components/Dashboard.jsx:96-107 | Only entries with the event's cart id change, and only in `isOnline` and `lastSeen`. `lastLocation` is kept. |
| Dashboard.UnknownCartIgnored | dashboard/src/components/Dashboard.jsx:77-106 | An event for a cart id not in the list leaves the list unchanged. |
| Dashboard.StatusIdempotent | dashboard/src/components/Dashboard.jsx:96-107 | Applying a status event twice is applying it once. |
| Dashboard.LocationIdempotent | dashboard/src/components/Dashboard.jsx:76-93 | Applying a location event twice is applying it once. |
| Dashboard.Listen | dashboard/src/components/Dashboard.jsx:43-53 | The listeners keep the list's length, and an event under a name other than `location-update` and `cart-status-changed` changes nothing. `Dashboard.Receive` states what each emission does. |
| Dashboard.Receive | dashboard/src/components/Dashboard.jsx:43-53 | An `all-carts` sent to this dashboard's socket replaces the list, and a reply to another socket never reaches it. Among broadcasts, `location-update` and `cart-status-changed` go to their reducers. `cart-status-change` is ignored. |
| Dashboard.ReceiveAll | dashboard/src/components/Dashboard.jsx:43-53 | Until an `all-carts` reaches this dashboard, the list keeps its length: broadcasts only rewrite entries. The arrival order is stated by `Dashboard.ReceiveAllSnoc`. |
| Dashboard.ReceiveAllSnoc | dashboard/src/components/Dashboard.jsx:43-53 | Events are applied in arrival order. |
| Dashboard.SnapshotReplaces | dashboard/src/components/Dashboard.jsx:43-45 | A snapshot sent to this dashboard wipes out everything received before it. |
| Dashboard.ReceiveCorrected | dashboard/src/components/Dashboard.jsx:51-53 | The corrected listener applies `cart-status-change` like `cart-status-changed`, and otherwise behaves as written. |
| Dashboard.ReceiveAllCorrectedSnoc | dashboard/src/components/Dashboard.jsx:51-53 | The corrected listener applies events in arrival order. |
| Mirror.SnapshotMirrors | backend/src/services/socketService.js:86-91 | The `all-carts` snapshot shows every cart's id and presence, in table order. |
| Mirror.StatusMirrored | dashboard/src/components/Dashboard.jsx:96-107 | A status payload for a cart moves a mirrored list to the table where that cart has the payload's presence. |
| Mirror.LocationMirrored | dashboard/src/components/Dashboard.jsx:76-93 | A location payload does the same, with its timestamp as `lastSeen`. |
| Mirror.IngestMirrored | backend/src/routes/location.js:47-83 | The broadcasts of an accepted report keep the dashboard's list mirroring the updated table. |
| Mirror.SweepNoticeMirrored | backend/src/services/socketService.js:111-119 | One sweep broadcast, applied by the corrected listener, follows the demotion of its cart. |
| Mirror.NoticeMirrored | backend/src/services/cartStatusService.js:69-76 | A demotion broadcast, applied by the corrected listener, sets that cart offline in the mirror. |
| Mirror.SweepMirroredCorrected | backend/src/services/socketService.js:111-120 | With the corrected listener, the dashboard mirrors the table through every step of either sweep. |
| Mirror.DemoteKeepsIds | backend/src/services/cartStatusService.js:64-66 | Demoting changes no cart id. |
| Mirror.MonitorNoticesHeard | backend/src/services/cartStatusService.js:70 | The monitor's broadcasts are applied the same by the listener as written and by the corrected one. |
| Mirror.MonitorMirrored | backend/src/services/cartStatusService.js:64-76 | The 60 s monitor keeps the dashboard mirroring the table, even as written. |
| Mirror.DisconnectLeavesViewStale | backend/src/services/socketService.js:73-77 | As written, a disconnected cart is offline in the table, but the dashboard ignores the broadcast and still shows the cart online. |
| Mirror.PresenceMirroredCorrected | backend/src/services/socketService.js:38-42 | With the corrected listener, connect and disconnect broadcasts move the mirror to the table the socket service leaves. |
| Mirror.MonitorPreemptsStaleCheck | backend/src/services/socketService.js:102-109 | After a healthy 60 s sweep, a 5 min stale check at the same instant selects nothing. |

## Left out

- **Concurrency.** Node interleaves handlers at each `await`, and both sweeps run on `setInterval`. Each handler and each sweep is one atomic step at a given `now`. When a timer fires is not modelled; `CartStatusService` only records which intervals are running.
- **Time.** Within one handler every `new Date()` is the same instant `now`.
- **Floating point.** Coordinates and accuracy are `real`, and NaN is not modelled. `toFixed` in the log line is modelled only as the condition under which it throws.
- **Logging.** `console.log` output is not modelled.
- **Foreign calls.** JWT verification is the parameter `verify`, bcrypt is the parameter `hash`, and Sequelize is the `Db` class. Sequelize's coercion of values is modelled only as a failing query or save: a non-string cart id, or a `name` or `description` that is not a string, or an `isActive` that is not a boolean (`null` included).
- **Timestamps.** `createdAt`/`updatedAt` (`timestamps: true`) are not modelled, so they do not appear in serialised carts.
- **Auth store errors.** `authMiddleware` failing on a store error (401 "Please authenticate") is not modelled. Its cart lookup always succeeds.
- `admin-connect` (joins the `admins` room) is left out. No emission targets that room.
- **Missing `io`.** `io` is always present in the socket service and the location route. The status monitor takes it as possibly null.
- **Errors inside `cart-connect`.** The 500-style "Connection failed" reply for any throw inside `cart-connect` is modelled for a failed lookup or save and for an unreadable payload only.
- **History ownership.** `GET /history/:cartId` does no ownership check: any authenticated caller can read any cart's history, and the model keeps this.
- **Malformed history requests.** Query parameters arrive already parsed: `limit` is the integer `parseInt` makes of it, and a negative one is answered 500. A `limit` that does not parse (`NaN`) and a date string that does not parse are not modelled.
- **Accuracy echo.** The dashboard's location echo carries the accuracy as the cart sent it, while the table stores `accuracy || null`. `Mirror` relates only `cartId`, `isOnline` and `lastSeen`, so this difference is not stated.
- **Missing location.** A `location-update` payload without `location` would make `data.location.latitude` throw in the dashboard. The backend's payload always has it, and the throwing case is not modelled.
- **Dates on the wire.** `JSON.stringify` sends a `Date` as its ISO string. Serialised rows and broadcast payloads keep it as the instant it names (`Date`), so writing and reading the ISO string is not modelled.
- **Object identity.** `===` on object-valued properties is modelled as value equality; the cart ids compared are strings.
- **Dashboard wiring.** `loadCarts`, the HTTP clients, UI rendering and the socket wiring outside lines 43-53 of Dashboard.jsx are not part of this model.
- Presence.Found: its own contract states only the length bound. Its meaning is stated by `Presence.FoundMembers` and `Presence.FoundCounts`.
- CartsRoute.Patched and CartsRoute.UpdateCart: `name`, `description` and `isActive` are modelled as non-null columns of their own type. An explicit `null` in the body, which the nullable columns of Cart.js:23-35 would store, is modelled as a failed save (500). So is any other `name` or `description` that is not a string, or `isActive` that is not a boolean.
- **Row order of queries.** `Cart.findAll` in both sweeps, in `GET /` and in `get-all-carts` has no `order`, so the database may return rows in any order. The model uses table order, which is one admissible order. `Sweep.SaveOffline`, `CheckInactiveCarts`, `CheckStale` and `PublicList` state their order only for that choice. `GET /history` orders by `timestamp` only, so rows with equal timestamps may also come in any order. `HistoryModel.SortNewestFirst` fixes one order for ties, and `Query`, `GetHistory` and `HistoryAnswer` state the tie order only for that choice.
- Dashboard.UpdateCartLocation and Dashboard.UpdateCartStatus: their own contracts state only the length. What each entry becomes is stated by `Dashboard.LocationUpdateAt` and `Dashboard.StatusUpdateAt`.

## Findings

| source | as written | input that shows it | evidently intended | confidence | as-written member | corrected member |
|---|---|---|---|---|---|---|
| dashboard/src/components/Dashboard.jsx:51 | The dashboard listens for presence only under `cart-status-changed`. The socket service broadcasts connect, disconnect and stale-check presence as `cart-status-change` (backend/src/services/socketService.js:38, 73, 115), so the dashboard ignores them. | Cart "cart-1" is online in the table and in the list. It disconnects at time 1. The table then has it offline with `lastSeen` 1, while the list still shows it online. | Presence broadcasts from the socket service update the dashboard like the other presence broadcasts. | medium, not executed | Mirror.DisconnectLeavesViewStale | Mirror.PresenceMirroredCorrected |
