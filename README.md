# Bar-bourse pricing core in Dafny

This project models the pricing state machine of the bar-bourse backend, a drinks "stock
exchange". The server keeps an in-memory store that maps each drink name to its current
price, the time of its last price change (`lastPurchased`) and a chart history of at most 50
`{x: time, y: price}` points. Three code paths change the store:

- **Loading.** At start-up the store is filled from a list of `{name, price}` records. Each
  drink gets one history point stamped with the load time. A repeated name overwrites the
  earlier entry.
- **Decay pass.** Every timer tick, each drink idle strictly longer than 20000 ms loses 10%.
  Its idle clock is reset to the tick's time and one history point is recorded. The server
  broadcasts the store only when some drink decayed.
- **Purchase.** Buying a known drink raises its price by 10%, resets its idle clock and
  records one history point, then broadcasts. Buying an unknown name changes nothing and
  answers "not found".

`addToHistory` pushes a point and then drops the oldest one if the history has grown past
50. The effect is a first-in first-out window of the newest 50 points.

Files:

- `history.dfy` (module `History`): chart points, the 50-point window `LastN`, one
  recording (`Push`) and many recordings in a row (`PushAll`).
- `pricing.dfy` (module `Pricing`): the drink record `Item` and the per-drink steps
  (`Recorded`, `Bought`, `Decayed`). It also holds the value-level specifications of a decay
  pass (`DecayAll`, built from the partial pass `DecayVisited`) and of loading (`Seeded`),
  with the lemmas about them.
- `store.dfy` (module `Drinks`): class `Store`, whose `drinks` map field is updated in
  place by the constructor `Load` and by the methods `AddToHistory`, `DecayDrink`,
  `DecayPass` and `Purchase`. Each method's postcondition ties the new map to the
  specification functions of `Pricing`.

Every clock reading is a parameter. The source reads `Date.now()` separately while loading
each record, when the decay tick starts, when a purchase sets `lastPurchased`, and again
inside `addToHistory`. So `Load` takes one reading per record. `DecayPass` takes the tick's
reading `now` and a function `clock` that gives the reading `addToHistory` takes for each
drink. `Purchase` takes `now` for `lastPurchased` and a separate `t` for the history point.
The model never assumes these readings agree, and it does not assume the clock is monotonic.

Prices are `real`, so ×1.10 and ×0.90 are exact.

The source's broadcasts (`io.emit`) become returned flags. `DecayPass` returns the
`pricesHaveChanged` flag, and `Purchase` returns `found`. The caller broadcasts exactly when
the flag is true.

The decay loop visits the drink names as a set, in an arbitrary order. JavaScript's
`for … in` visits integer-like names first, in ascending numeric order, and then the other
names in insertion order. The outcome does not depend on the order: each drink is examined
and changed on its own, and its history stamp is `clock(name)`.

Two consequences of the code worth stating:

- A name listed twice at load time is not rejected. The later record overwrites the
  earlier one (`Pricing.SeededLastWins`).
- A second decay pass within 20000 ms of a pass need not be a no-op. A drink that decayed
  in the first pass does not decay again (`Pricing.DecayedDrinkRests`). A drink that did not
  decay may: one idle 15000 ms at a tick is idle 25000 ms at a tick 10000 ms later, and
  decays then (`Pricing.LaterPassMayDecay`). A second pass is guaranteed to leave the whole
  store unchanged only when its reading is not later than the first one
  (`Pricing.PassLeavesNoneIdle`, `Pricing.SecondPassIsNoop`). At any later reading, a drink
  the first pass left alone may decay: one idle exactly 20000 ms at the first reading decays
  1 ms later.

## Model

| member | source | states |
|---|---|---|
| `History.Push` | backend/server.js:48-53 | Recording a point into a history of at most 50 points leaves 1 to 50 points, and the newest one is the recorded point. |
| `History.PushShape` | backend/server.js:48-53 | Recording into a history of at most 50 points gives 1 to 50 points ending in the new point. It is the old history plus the point when there was room, and the old history minus its oldest point plus the new point when it was full. |
| `History.PushAllIsWindow` | backend/server.js:45-54 | After any number of recordings, the history is exactly the newest 50 of all the points recorded, in chronological order, and holds at most 50 points. |
| `Pricing.RecordAppendsOnePoint` | backend/server.js:45-54 | Recording keeps `price` and `lastPurchased`. It appends exactly one point carrying the drink's current price, evicting the oldest point only when the history was full, and the history stays within 1..50 points. |
| `Pricing.NewItem` | backend/server.js:32-37 | A freshly loaded drink keeps its listed price, has a history of 1 to 50 points, and is not idle at its load time. |
| `Pricing.Seeded` | backend/server.js:30-38 | Every drink of the loaded store has the one-point history `[{x: lastPurchased, y: price}]`: its load time and its price. |
| `Pricing.Recorded` | backend/server.js:45-54 | Recording keeps `price` and `lastPurchased`, and the newest history point is the clock reading `t` with the current price. A history of 1 to 50 points stays within 1 to 50. |
| `Pricing.Bought` | backend/server.js:82-84 | A purchase sets the price to price × 1.10 and `lastPurchased` to `now`. The newest history point carries the raised price. A positive price strictly rises, and the history stays within 1 to 50 points. |
| `Pricing.Decayed` | backend/server.js:65-67 | A decay step sets the price to price × 0.90 and `lastPurchased` to `now`. The newest history point carries the lowered price. A positive price strictly falls but stays positive, and the history stays within 1 to 50 points. |
| `Pricing.Visit` | backend/server.js:63-70 | The loop changes a drink if and only if it has reached the drink and the drink is idle. A drink it has reached is no longer idle at the tick's reading. |
| `Pricing.DecayAll` | backend/server.js:59-76 | A whole pass keeps exactly the same names, and afterwards no drink is idle at the tick's reading. |
| `Pricing.SeededNames` | backend/server.js:30-38 | The loaded store holds exactly the names that appear in the record list. |
| `Pricing.SeededLastWins` | backend/server.js:30-38 | For a listed name, the store entry comes from the last record with that name: its price, `lastPurchased` equal to that record's load time, and the one-point history `[{x: load time, y: price}]`. |
| `Pricing.SeededWellFormed` | backend/server.js:32-37 | Every loaded drink has a history of 1 to 50 points. |
| `Pricing.PurchaseStep` | backend/server.js:82-84 | A purchase sets the price to price × 1.10 and `lastPurchased` to `now`. It records exactly one point stamped `t` carrying the raised price, inside the 50-point window. |
| `Pricing.DecayVisited` | backend/server.js:63-70 | A decay pass, whole or partial, neither adds nor removes drink names. |
| `Pricing.DecayGate` | backend/server.js:63-70 | In a pass at `now`, a drink with `now - lastPurchased > 20000` gets price × 0.90, `lastPurchased = now` and one point stamped by its own clock reading. A drink with `now - lastPurchased <= 20000` is left exactly as it was. |
| `Pricing.GateIsStrict` | backend/server.js:64 | A drink idle exactly 20000 ms is not decayed. |
| `Pricing.DecayWellFormed` | backend/server.js:63-70 | A decay pass keeps every history within 1..50 points. |
| `Pricing.ChangedIffStoreChanged` | backend/server.js:61-75 | The changed flag, and so the broadcast, is raised if and only if the pass changes the store. |
| `Pricing.DecayedDrinkRests` | backend/server.js:64-66 | A drink that decayed at `now` is not idle at any reading at most 20000 ms later, so the idle-clock reset stops it decaying again on the next ticks. |
| `Pricing.LaterPassMayDecay` | backend/server.js:63-70 | A drink idle 15000 ms is left alone by one pass, yet a pass 10000 ms later decays it: a second pass within 20000 ms is not a no-op in general. |
| `Pricing.PassLeavesNoneIdle` | backend/server.js:63-70 | After a pass at `now`, no drink is idle at `now` or at any earlier reading. |
| `Pricing.QuietPassIsNoop` | backend/server.js:61-75 | A pass in which no drink is idle changes nothing. |
| `Pricing.SecondPassIsNoop` | backend/server.js:59-76 | A second pass at the same reading raises no flag and leaves the store as the first pass left it. |
| `Pricing.PricesStayPositive` | backend/server.js:63-84 | If every price is positive, every price stays positive after a decay pass and after a purchase. |
| `Pricing.ColaScenario` | backend/server.js:59-93 | Cola loaded at 1.00 and bought at 0 and 1000 costs 1.10, then 1.21. A pass at 25000 decays it to 1.089 and sets its idle clock to 25000. A pass at 30000 leaves the store unchanged. |
| `Drinks.Store.Load` | backend/server.js:30-38 | Loading fills the store with exactly the seeded map `Seeded(records, times)`, and every history is well formed. |
| `Drinks.Store.AddToHistory` | backend/server.js:45-54 | Push, then shift when longer than 50, has the same effect as the 50-point window. Only the named drink's history changes. |
| `Drinks.Store.DecayDrink` | backend/server.js:64-69 | One loop step changes only the visited drink. It decays the drink exactly when the drink is idle, and reports whether it did. |
| `Drinks.Store.DecayPass` | backend/server.js:59-76 | The new store is `DecayAll(old store, now, clock)`. The returned flag is true exactly when some drink was idle. |
| `Drinks.Store.Purchase` | backend/server.js:79-93 | A known name is replaced by its bought state, all other drinks are unchanged, and the result is true (broadcast). An unknown name leaves the store unchanged and yields false (not found, no broadcast). |

## Left out

- HTTP plumbing is not modelled: the Express app, CORS, the HTTP server, `server.listen`, and the response status and message bodies (backend/server.js:1-22, 89, 91, 95-97). `Purchase` takes the name directly and returns found or not found.
- socket.io broadcasts (backend/server.js:74, 87) are not modelled. They become the returned flags described above.
- Reading and parsing `drinks.json`, and the `catch` that swallows any error thrown while loading (backend/server.js:26-28, 40-42), are I/O. When reading or parsing fails, the code keeps an empty store. When a record itself throws (a `null` entry fails at `drink.name` on line 32), the drinks loaded before it stay in the store and the rest are skipped. The model starts from a given list of well-formed records and does not model that partial load.
- The `setInterval` timer and its 5000 ms cadence (backend/server.js:59, 76) are scheduling. The model has a single pass with an injected reading.
- `Date.now()` is not modelled; every reading is a parameter, as described above.
- Floating-point rounding, underflow toward zero and `toFixed(2)` formatting (backend/server.js:65, 82, 86) are not modelled, because prices are exact reals.
- Console logging (backend/server.js:39, 73, 86) is left out.
- JavaScript's prototype-key behaviour of the plain object `drinks` is not modelled, at either the loading assignment (backend/server.js:32) or the purchase lookup (backend/server.js:81). The model treats the store as a plain map. In JavaScript, a record named `__proto__` replaces the store's prototype instead of adding a drink, so the decay loop never visits it. For that name `Pricing.SeededNames`, `Pricing.SeededLastWins` and `Pricing.DecayGate` therefore do not describe the code. Buying a name such as `constructor` finds an inherited property rather than a drink. Buying `__proto__` writes `price` and `lastPurchased` onto `Object.prototype`.
- The model does not prove that history timestamps increase, because nothing in the code ensures it. The clock is not assumed to be monotonic, and each point's time is a separate reading.
- Pricing.PricesStayPositive: the code does not check that seed prices are positive, so positivity is proved only for stores whose prices start positive.
