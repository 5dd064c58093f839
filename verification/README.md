# Kitchen simulation model

A Dafny model of the simulation core of a small cooperative cooking game
written in Go. Players walk around a kitchen of fixed stations. They fetch
tomatoes and lettuce from spawners, chop them on a chopping board, put the
chopped ingredients on clean plates, and deliver the plates at the exit
against pending orders. The exit hands back dirty plates, and a sink washes
them clean again.

The model is split into one module per source file, plus two small helpers:

- `Maybe` (`maybe.dfy`): `Option`, for Go's nil.
- `StringOrder` (`strings.dfy`): Go's `<` on strings (byte-wise
  lexicographic), and the sorted listing of a set of names. This is what
  `sort.Slice` produces for the exit.
- `Items` (`items.dfy`): the six items, their `canCombine` / `canCut` /
  `canWash` capabilities, `combine`, `completeCut`, `completeWash`, `name`
  and `newCleanPlate`. A clean plate's contents are a name-keyed map.
- `Tiles` (`tiles.dfy`): the eight stations and their `pickUp` / `drop` /
  `work`. Go mutates stations, held items and the global order list through
  pointers. Here every operation returns the new values instead: `PickedUp`
  holds the item and the station, and `Dropped` holds the accepted flag, the
  item the player keeps, the station and the order list.
- `Players` (`players.dfy`): `getNearbyTile`, and the interact / working /
  work part of `player.work`, over an abstract per-tick input record.
- `Game` (`game.dfy`): the initial layout, orders and order catalog of
  main.go; order replenishment; the tick (players in roster order, then
  replenishment); and concrete scenarios over the initial kitchen.

Modelling choices:

- Work progress is an integer tick count. Each tick adds 1/3/60, so in
  exact arithmetic a job completes at `WorkTicks` = 180 ticks, and the
  initial 0.25 is 45 ticks. Float rounding shifts this by one tick (see
  "Left out").
- Distances are integer squared distances. `getNearbyTile` compares
  `dist < closestDist` starting from `maxDist`, and the model compares
  squares starting from `maxDist * maxDist` (20 * 20 = 400). Both sides are
  non-negative, so the order is the same. Positions are integers.
- Orders are sequences of names. The Go orders hold items, but only their
  `name()` is ever read.
- The exit sorts the plate's keys. Go sorts the items' names, but `combine`
  stores each item under its own name. So under the plate invariant the two
  listings are the same (`PlateNamesAreItemNames`).
  `SortedIsUnique` shows that the result does not depend on the order in
  which Go's map iteration handed the names to `sort.Slice`.
- Order matching compares each order as listed with the sorted plate names.
  It is not an order-blind (multiset) comparison. An order that lists chopped
  tomato before chopped lettuce can never be met, even by a plate holding
  exactly those two. `ListingOrderMatters` and `UnsortedOrderNeverMatches`
  state this, and the model follows the code. Every order the game actually
  issues is listed in name order (`OrdersAreSorted`), so all of them can be
  met.
- The random draws of `update` are parameters. `fires` stands for
  `rand.Intn(600) == 0`, and `choice` for the catalog index.

## Model

| member | source | states |
|---|---|---|
| `Items.Combine` | items.go:86-101 | Only a clean plate accepts. It accepts iff the other item is combinable, the plate has fewer than 3 entries and the name is not yet a key. On success exactly one entry (name to item) is added and the others stay. On failure the receiver is unchanged. Non-plates always refuse (items.go:23-25). |
| `Items.CombinePreservesValid` | items.go:86-101 | `combine` preserves the plate invariant: at most 3 entries, each stored under its own name, each combinable. |
| `Items.Capabilities` | items.go:103-233 | `canCombine` holds exactly for the chopped ingredients, `canCut` exactly for lettuce and tomato, and `canWash` exactly for the dirty plate. No item has two of these capabilities, and a clean plate has none, so plates never nest. |
| `Items.ValidContentsAtMostTwo` | items.go:86-101 | A valid plate only holds chopped lettuce and chopped tomato: at most two entries and no plates. So the capacity check of 3 never decides. |
| `Items.NamesDistinct` | items.go:107-233 | Two items share a name exactly when they are the same variant. The six names are pairwise distinct. |
| `Items.CompleteCut` | items.go:159-213 | The cut is defined exactly for cuttable items. It maps lettuce to chopped lettuce and tomato to chopped tomato. The product is combinable and not cuttable again. Other items get nil (items.go:31-33). |
| `Items.CompleteWash` | items.go:131-137 | The wash is defined exactly for the dirty plate and yields a valid, empty clean plate. |
| `Items.CanBuildPlate` | items.go:48-61 | `newCleanPlate(items)` does not panic iff the items are combinable, have pairwise distinct names and number at most 3. |
| `Items.CombineAll` | items.go:55-59 | The `newCleanPlate` loop: a successful run of combines needs a clean plate whenever there is something to combine, and yields a clean plate again. It never removes or replaces an entry already on the plate, because `combine` refuses a name that is present. |
| `Items.CombineAllContents` | items.go:55-59 | Combining items onto a valid plate one after another adds one entry per item, keyed by its name, and keeps the invariant. |
| `Items.NewCleanPlate` | items.go:48-61 | Under the no-panic precondition, the new plate satisfies the invariant and holds exactly the items' names, one entry per item. |
| `StringOrder.LessIsStrictTotal` | tiles.go:202-204 | Go's string `<` is asymmetric and total, which makes the sort of distinct names deterministic. |
| `StringOrder.Sorted` | tiles.go:198-204 | The sorted listing of a set of names is strictly ascending, holds exactly the set's elements and has the set's size. |
| `StringOrder.SortedIsUnique` | tiles.go:198-204 | Two strictly ascending sequences with the same elements are equal. So the exit's sorted names do not depend on the map iteration order. |
| `StringOrder.NotSortedIsNoListing` | tiles.go:205-216 | A sequence that is not strictly ascending is the sorted listing of no set. |
| `Tiles.Position` | tiles.go:41-43 | `getPosition` is the centre of the station's 16-by-16 tile: the midpoint of its left and right edges and of its top and bottom edges. |
| `Tiles.PickUp` | tiles.go:70-362 | Counter, board and sink hand over their contents and become empty; board and sink also reset progress to 0. Spawners hand out a fresh raw ingredient and stay unchanged. The exit hands out a dirty plate iff it owes one, and decrements its count. Wall and trash hand out nothing. Station kind and place never change. |
| `Tiles.PickUpPreservesValid` | tiles.go:287-296 | Picking up keeps the station invariant: progress below 180, and progress only while holding a workable item. The handed-out item is valid. |
| `Tiles.CounterDrop` | tiles.go:111-118 | An empty counter stores the item and accepts. An occupied counter accepts iff its contents' `combine` accepts and then holds the combined plate. A counter holding a non-plate always refuses. |
| `Tiles.BoardDrop` | tiles.go:298-309 | The chopping board accepts iff the item is cuttable and the board is empty. An occupied board always refuses. On refusal nothing changes. |
| `Tiles.SinkDrop` | tiles.go:364-375 | The sink accepts iff the item is washable and the sink is empty. An occupied sink always refuses. |
| `Tiles.TrashDrop` | tiles.go:245-255 | A clean plate is emptied and refused, so the player keeps the empty plate. A dirty plate is refused unchanged. Anything else is accepted and destroyed. |
| `Tiles.PlateNames` | tiles.go:197-204 | The plate's names as the exit compares them: strictly ascending, exactly the plate's keys. |
| `Tiles.PlateNamesAreItemNames` | tiles.go:197-204 | On a valid plate, the sorted keys are the sorted `name()`s of the items, which is what Go sorts. |
| `Tiles.FirstMatch` | tiles.go:205-222 | The scan finds nothing iff no order equals the names. Otherwise it returns the first index whose order equals them. |
| `Tiles.ExitDrop` | tiles.go:196-225 | The exit accepts iff the item is a clean plate whose sorted names equal a pending order as listed. Then exactly the first such order is removed, the rest keep their order, and `numDirty` grows by 1. Otherwise nothing changes. |
| `Tiles.Drop` | tiles.go:74-162 | Walls and spawners refuse and stay unchanged. Only the exit changes the orders, which never grow. Only the trash changes the item the player keeps. |
| `Tiles.DropPreservesValid` | tiles.go:111-118 | Dropping a valid item keeps the station invariant, and the item the player keeps is valid. |
| `Tiles.BoardWork` | tiles.go:311-321 | Without a cuttable item, work is a no-op. Otherwise progress grows by one tick, and on reaching 180 it resets to 0 and the contents become the cut product. |
| `Tiles.SinkWork` | tiles.go:377-387 | The same as the board, with washing: on completion the sink holds an empty clean plate with progress 0. |
| `Tiles.Work` | tiles.go:54 | Every station except a board or sink holding a workable item is left unchanged by work (`baseTile.work`). |
| `Tiles.WorkPreservesValid` | tiles.go:311-321 | Work keeps the station invariant. |
| `Tiles.WorkCounts` | tiles.go:316-318 | Sustained work on a workable board or sink counts ticks exactly, without transforming the item, while below 180. |
| `Tiles.BoardCompletesCut` | tiles.go:311-321 | From progress p, exactly 180 - p ticks of work leave the cut product on the board with progress 0, and picking up returns it. |
| `Tiles.SinkCompletesWash` | tiles.go:377-387 | From progress p, exactly 180 - p ticks of work leave an empty clean plate in the sink with progress 0. |
| `Tiles.CounterRoundTrip` | tiles.go:101-118 | Dropping on an empty counter and picking up returns the item and restores the counter. |
| `Tiles.CounterPickUpRoundTrip` | tiles.go:101-118 | Picking up from an occupied counter and dropping the item back restores it. |
| `Tiles.BoardRoundTrip` | tiles.go:287-309 | A cuttable item dropped on an empty, idle board comes back unchanged on pick-up, and the board is restored. |
| `Tiles.ExitDeliveryRoundTrip` | tiles.go:188-225 | After a successful delivery, picking up at the exit yields a dirty plate and restores the owed count. |
| `Tiles.UnsortedOrderNeverMatches` | tiles.go:202-216 | An order not listed in strictly ascending name order is never met. A delivery never removes it from any order list, and alone in the list it makes the exit refuse every item. |
| `Tiles.SoleOrderDelivered` | tiles.go:205-221 | A plate whose sorted names equal the only pending order is delivered. The ledger empties and the exit owes one more dirty plate. |
| `Tiles.SaladDelivers` | tiles.go:196-225 | A plate of chopped lettuce and chopped tomato meets the order listing those two in name order. |
| `Tiles.ListingOrderMatters` | tiles.go:202-216 | The same plate is refused for the order listing tomato first and accepted for lettuce first. Matching is by listing, not by multiset. |
| `Players.Dist2` | player.go:247-251 | `getDistance` squared: zero exactly at the same point, and at least the squared gap along each axis. |
| `Players.SquaresOrderDistances` | player.go:247-251 | Two non-negative reals compare with `<` exactly as their squares do, in both directions. |
| `Players.DistancesCompareAsSquares` | player.go:236-241 | If two distances are the non-negative square roots of the squared distances `a` and `b`, as `getDistance` returns, then `dist < closestDist` holds exactly when `a < b`. This is why the nearest-tile search may compare `Dist2` values. |
| `Players.NearbyTile` | player.go:231-245 | The result is none iff no station is strictly within `maxDist`. Otherwise it is within range, no station is nearer, and every earlier station is strictly farther (ties go to the earliest). |
| `Players.NearbyTileIsNearest` | player.go:235-242 | The scan returns k iff k is the nearest in-range station, earliest on ties. |
| `Players.StationAtPointIsNearest` | player.go:235-242 | A station exactly at the query point is chosen unless an earlier one is there too. |
| `Players.NearbyTileOnlyReadsPositions` | player.go:235-237 | The search depends only on the stations' positions, not on their contents. |
| `Players.Interact` | player.go:206-217 | With no station in reach nothing changes. Empty hands take `pickUp`'s result, which may be none. With a held item the hands empty iff `drop` accepted; otherwise the player keeps the item as the station left it. Only the target station changes, and orders never grow. |
| `Players.NextWorking` | player.go:165-221 | Pressing work sets the flag, even while moving. Moving without pressing clears it. With neither, it persists. |
| `Players.WorkingIsLastEvent` | player.go:165-221 | Over a run of inputs, the working flag ends set exactly when some input pressed work and no later input moved, or when it started set and no input moved. |
| `Players.WorkNearby` | player.go:223-228 | Exactly the nearest station in reach receives `work()`, and the others are unchanged. With none in reach nothing changes. |
| `Players.PlayerWork` | player.go:160-229 | One player's tick. The player ends where movement put it, and the flag follows `NextWorking`. The hands and orders are exactly what `Interact` left at the new place, or unchanged without interact. Without the flag the stations are what the interaction left. With it, exactly the station in reach, the one interacted with, additionally gets one `Work`. With none in reach, nothing more changes. The layout is kept and orders never grow. |
| `Players.WorkTargetsInteractedStation` | player.go:207-224 | Interacting moves no station, so the worked station is the one interacted with. |
| `Players.PlayerWorkPreservesValid` | player.go:206-228 | A player's tick keeps every station and the player's item valid. |
| `Players.ActedPreservesValid` | player.go:206-217 | The interact branch, taken or skipped, keeps every station and the player's item valid. |
| `Players.WorkNearbyPreservesValid` | player.go:223-228 | Working the station in reach keeps every station valid. |
| `Game.InitialPlateIsBuilt` | main.go:97 | `newCleanPlate([choppedLettuce, choppedTomato])` does not panic, and builds a valid plate with those two entries. |
| `Game.InitialTiles` | main.go:89-104 | Fourteen stations in two rows of seven tiles, 16 apart from (10, 10). The bottom row is all counters. |
| `Game.InitialPlayers` | main.go:106-117 | Three players, empty-handed and idle, each at least 16 from the others. |
| `Game.Replenish` | main.go:150-155 | At most one order is appended per tick, only when fired and while fewer than 5 are pending, and it is the chosen catalog entry. Existing orders are untouched, so a ledger of at most 5 stays at most 5. |
| `Game.RunPlayers` | main.go:146-148 | Players act in roster order. Each player acts on the stations and orders the one before it left: the player at `from` is exactly what its own `PlayerWork` on the current world made of it. The next player is exactly what its `PlayerWork` on that result made of it. After the last player, the stations and orders are exactly what its turn left. Every acting player ends at its movement position with the flag its input decides. Players already done are not touched again, the layout is kept and orders never grow. |
| `Game.RunPlayersIsFold` | main.go:146-148 | The recursive pass over the roster equals the front-to-back fold that gives each player, in order, one turn on the world the previous player left. |
| `Game.Tick` | main.go:146-155 | Stations and players are exactly what the players' turns left. Only then may an order arrive. The orders after the turns are kept as a prefix, and at most one more is appended. One is appended iff the draw fires and fewer than 5 are pending after the turns, and it is the chosen catalog entry. At most 5 pending stays at most 5. |
| `Game.RunPlayersPreservesValid` | main.go:146-148 | The players' turns keep the world invariant: stations valid, held items valid, at most 5 orders. |
| `Game.TickPreservesValid` | main.go:146-155 | Every tick keeps the world invariant. |
| `Game.InitialWorldValid` | main.go:89-124 | The initial stations, roster and orders satisfy the world invariant. |
| `Game.Run` | main.go:140-155 | Any sequence of ticks keeps the layout and the roster size. |
| `Game.RunPreservesValid` | main.go:140-155 | Any sequence of ticks keeps the world invariant. |
| `Game.OrdersAreSorted` | main.go:119-134 | The initial order and every catalog order list their names in ascending order. |
| `Game.CatalogOrdersSatisfiable` | main.go:126-134 | Each catalog order is met by a plate holding exactly its ingredients. |
| `Game.InitialExit` | main.go:95 | The sixth station is the exit, owing no dirty plates. |
| `Game.InitialPlateDelivers` | main.go:95-124 | Delivering the starting plate at the initial layout's exit meets the initial order, empties the ledger and makes the exit owe one dirty plate. |
| `Game.InitialCounterPlate` | main.go:97 | The plate on the first counter is the starting plate of chopped lettuce and chopped tomato. |
| `Game.InitialBoardAndSink` | main.go:92-96 | The board starts with cuttable lettuce and the sink with a washable dirty plate, both at 45 ticks. After the remaining 135 ticks they hold chopped lettuce and an empty clean plate. |
| `Game.TomatoSpawnerInReach` | main.go:89-93 | A player just above the tomato spawner, where collisions allow it to stand, targets the spawner and no other station. |
| `Game.TakeTomato` | player.go:206-210 | An empty-handed player just above the tomato spawner who interacts holds a fresh tomato, and the stations and orders are unchanged. |
| `Game.DeliverLettuce` | player.go:206-215 | A player standing just above the exit with a chopped-lettuce plate delivers it: hands empty, first order removed, one dirty plate owed. |
| `Game.DeliveryMakesRoomSameTick` | main.go:146-155 | Players act before replenishment, so with 5 orders pending a delivery lets a new order arrive in the same tick. |

## Left out

- Rendering: every `draw` method, `drawProgress`, and the drawing half of
  `update` (tiles.go:11-33, tiles.go:45-52, items.go:14-21, items.go:63-84,
  main.go:157-178). This is presentation only.
- Input devices: `keyboardController`, `gamepadController` and `getInput`
  (player.go:22-125). Their output is the `Input` record, already
  edge-triggered.
- Asset loading, transparency keying, the start-up cursor switch,
  `ebiten.Run` and `main` (main.go:42-68, 141-144, 181-187). These are I/O
  and bootstrap.
- Movement and collision (player.go:163-204). This is float arithmetic with
  `math.Sqrt`, division by |h| + |v|, and a step that is undone once per
  overlapping obstacle. Instead, each player's `Turn` in a tick carries the
  position its movement step ends at, and `PlayerWork` puts the player there.
  The model therefore does not promise that the position is one the
  collision code would allow. Only the movement test that clears the working
  flag is computed.
- Randomness (main.go:151-152): both draws are parameters of `Tick`.
- Float progress: the model counts whole ticks, and 180 (45 from the
  initial 0.25) is the model's count. In float64, 0.0 plus 180 rounded
  additions of 1/180 gives 0.9999999999999974, and 0.25 plus 135 of them
  gives 0.9999999999999973. Both are below 1.0, so the Go code completes
  the job on the 181st tick from 0 and on the 136th tick from 0.25, one
  tick later than the model.
- Float positions: stations sit on integer coordinates in the layout, and
  player positions are integers in the model.
- `Tiles.ExitDrop`: `numDirty` is a Go `int` and is modelled as an unbounded
  `nat`. Overflowing it would take about 2^63 deliveries.
- Pointer aliasing: items are values, so the model cannot express two holders
  sharing one item. The Go code never creates such sharing: every transfer
  clears the previous holder or hands out a fresh item.
