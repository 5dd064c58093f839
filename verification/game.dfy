/**
 main.go: the fixed kitchen layout, the starting orders and the catalog new
 orders are drawn from, and the simulation half of `update`: every player
 acts in roster order, then the order list may grow by one.
 */
module Game {

  import opened Maybe
  import opened StringOrder
  import opened Items
  import opened Tiles
  import opened Players

  /** Orders stop arriving once this many are pending. */
  const MaxPending := 5

  /** `possibleOrders`. */
  const Catalog: seq<Order> := [["choppedLettuce"], ["choppedLettuce", "choppedTomato"]]

  /** The order list at start-up. */
  const InitialOrders: seq<Order> := [["choppedLettuce", "choppedTomato"]]

  /** Progress 0.25 of a cut or wash, in ticks. */
  const QuarterDone := 45

  /** The plate waiting on the first counter, holding chopped lettuce and
      chopped tomato. */
  function InitialPlate(): Item
  {
    CleanPlate(map["choppedLettuce" := ChoppedLettuce, "choppedTomato" := ChoppedTomato])
  }

  /** The first counter's plate is what `newCleanPlate` builds from chopped
      lettuce and chopped tomato: that call does not panic, and the plate
      satisfies the plate invariant. */
  lemma InitialPlateIsBuilt()
    ensures CombineAll(CleanPlate(map[]), [ChoppedLettuce, ChoppedTomato]).Some?
    ensures NewCleanPlate([ChoppedLettuce, ChoppedTomato]) == InitialPlate()
    ensures ValidItem(InitialPlate())
  {
  }

  /** `tiles`: the stations in declaration order, two rows of seven tiles
      side by side, the top row the working stations and the bottom one
      counters. */
  function InitialTiles(): (r: seq<Station>)
    ensures |r| == 14
    ensures forall j :: 0 <= j < |r| ==> r[j].x == 10 + 16 * (j % 7) && r[j].y == 10 + 16 * (j / 7)
    ensures forall j :: 7 <= j < |r| ==> r[j].kind.Counter?
  {
    [ Station(10, 10, Wall),
      Station(26, 10, Trash),
      Station(42, 10, ChoppingBoard(Some(Lettuce), QuarterDone)),
      Station(58, 10, TomatoSpawner),
      Station(74, 10, LettuceSpawner),
      Station(90, 10, Exit(0)),
      Station(106, 10, Sink(Some(DirtyPlate), QuarterDone)),
      Station(10, 26, Counter(Some(InitialPlate()))),
      Station(26, 26, Counter(Some(Lettuce))),
      Station(42, 26, Counter(Some(ChoppedLettuce))),
      Station(58, 26, Counter(Some(Tomato))),
      Station(74, 26, Counter(Some(ChoppedTomato))),
      Station(90, 26, Counter(Some(DirtyPlate))),
      Station(106, 26, Counter(None)) ]
  }

  /** `players`: three players, empty-handed and idle. */
  function InitialPlayers(): (r: seq<Player>)
    ensures |r| == 3
    ensures forall j :: 0 <= j < |r| ==> r[j].holding.None? && !r[j].working
    ensures forall i, j :: 0 <= i < j < |r| ==> Dist2(r[i].x, r[i].y, r[j].x, r[j].y) >= 16 * 16
  {
    [Player(100, 100, None, false), Player(150, 150, None, false), Player(100, 150, None, false)]
  }

  datatype World = World(tiles: seq<Station>, players: seq<Player>, orders: seq<Order>)

  function InitialWorld(): World
  {
    World(InitialTiles(), InitialPlayers(), InitialOrders)
  }

  /**
   Order replenishment. `fires` stands for `rand.Intn(60*10) == 0` and
   `choice` for `rand.Intn(len(possibleOrders))`. At most one catalog order is
   appended, only while fewer than `MaxPending` are pending, and the pending
   orders are kept as they are.
   */
  function Replenish(orders: seq<Order>, fires: bool, choice: nat): (r: seq<Order>)
    requires choice < |Catalog|
    ensures |orders| <= |r| <= |orders| + 1
    ensures r[..|orders|] == orders
    ensures |r| > |orders| <==> fires && |orders| < MaxPending
    ensures |r| > |orders| ==> r[|orders|] == Catalog[choice]
    ensures |orders| <= MaxPending ==> |r| <= MaxPending
  {
    if |orders| < MaxPending && fires then orders + [Catalog[choice]] else orders
  }

  /**
   Players `from` onwards act, in roster order, each seeing the stations and
   orders the ones before it left. Each acting player ends where its movement
   put it, with the working flag its input decides; the player at `from` is
   exactly what its own turn made of it, and nobody before `from` is touched.
   */
  function RunPlayers(w: World, turns: seq<Turn>, from: nat): (r: World)
    requires |turns| == |w.players| && from <= |w.players|
    ensures |r.players| == |w.players|
    ensures SameLayout(r.tiles, w.tiles)
    ensures |r.orders| <= |w.orders|
    ensures forall j :: 0 <= j < from ==> r.players[j] == w.players[j]
    ensures from < |w.players| ==>
      var s := PlayerWork(w.players[from], turns[from], w.tiles, w.orders);
      && r.players[from] == s.player
      && (from + 1 == |w.players| ==> r.tiles == s.tiles && r.orders == s.orders)
      && (from + 1 < |w.players| ==>
            r.players[from + 1] == PlayerWork(w.players[from + 1], turns[from + 1], s.tiles, s.orders).player)
    ensures forall j :: from <= j < |w.players| ==>
      && r.players[j].x == turns[j].x && r.players[j].y == turns[j].y
      && r.players[j].working == NextWorking(w.players[j].working, turns[j].input)
    decreases |w.players| - from
  {
    if from == |w.players| then w
    else
      var next := TurnOf(w, turns, from);
      var r := RunPlayers(next, turns, from + 1);
      assert r.players[from] == next.players[from];
      r
  }

  /** Player `k` takes its turn in world `w`. */
  function TurnOf(w: World, turns: seq<Turn>, k: nat): World
    requires |turns| == |w.players| && k < |w.players|
  {
    var s := PlayerWork(w.players[k], turns[k], w.tiles, w.orders);
    World(s.tiles, w.players[k := s.player], s.orders)
  }

  /** Players `from` up to, not including, `k` take their turns, front to
      back, each in the world the previous one left. */
  function TurnsFrom(w: World, turns: seq<Turn>, from: nat, k: nat): (r: World)
    requires |turns| == |w.players| && from <= k <= |w.players|
    ensures |r.players| == |w.players|
    decreases k
  {
    if k == from then w else TurnOf(TurnsFrom(w, turns, from, k - 1), turns, k - 1)
  }

  lemma {:induction false} TurnsFromShift(w: World, turns: seq<Turn>, from: nat, k: nat)
    requires |turns| == |w.players| && from < k <= |w.players|
    ensures TurnsFrom(TurnOf(w, turns, from), turns, from + 1, k) == TurnsFrom(w, turns, from, k)
    decreases k
  {
    var first := TurnOf(w, turns, from);
    if k == from + 1 {
      assert TurnsFrom(first, turns, from + 1, k) == first;
      assert TurnsFrom(w, turns, from, k) == TurnOf(TurnsFrom(w, turns, from, from), turns, from);
    } else {
      TurnsFromShift(w, turns, from, k - 1);
      var mid := TurnsFrom(first, turns, from + 1, k - 1);
      assert TurnsFrom(first, turns, from + 1, k) == TurnOf(mid, turns, k - 1);
      assert mid == TurnsFrom(w, turns, from, k - 1);
    }
  }

  /**
   Roster order over the whole roster: running the players from `from` is
   letting each of them, front to back, take its turn in the world the one
   before it left.
   */
  lemma {:induction false} RunPlayersIsFold(w: World, turns: seq<Turn>, from: nat)
    requires |turns| == |w.players| && from <= |w.players|
    ensures RunPlayers(w, turns, from) == TurnsFrom(w, turns, from, |w.players|)
    decreases |w.players| - from
  {
    if from == |w.players| {
      assert RunPlayers(w, turns, from) == w;
    } else {
      RunPlayersIsFold(TurnOf(w, turns, from), turns, from + 1);
      RunPlayersStep(w, turns, from);
    }
  }

  /**
   One step of `RunPlayers`: player `from` takes its turn, then the rest run,
   and the fold over the rest carries over to the fold from `from`.
   */
  lemma RunPlayersStep(w: World, turns: seq<Turn>, from: nat)
    requires |turns| == |w.players| && from < |w.players|
    requires RunPlayers(TurnOf(w, turns, from), turns, from + 1)
          == TurnsFrom(TurnOf(w, turns, from), turns, from + 1, |w.players|)
    ensures RunPlayers(w, turns, from) == TurnsFrom(w, turns, from, |w.players|)
  {
    TurnsFromShift(w, turns, from, |w.players|);
  }

  /**
   The simulation part of `update`: all players act, and only then may one
   order arrive, so an order delivered in this tick already makes room.
   */
  function Tick(w: World, turns: seq<Turn>, fires: bool, choice: nat): (r: World)
    requires |turns| == |w.players| && choice < |Catalog|
    ensures |r.players| == |w.players|
    ensures SameLayout(r.tiles, w.tiles)
    ensures |w.orders| <= MaxPending ==> |r.orders| <= MaxPending
    ensures var a := RunPlayers(w, turns, 0);
      && r.tiles == a.tiles && r.players == a.players
      && |a.orders| <= |r.orders| && r.orders[..|a.orders|] == a.orders
      && |r.orders| <= |a.orders| + 1
      && (|r.orders| > |a.orders| <==> fires && |a.orders| < MaxPending)
      && (|r.orders| > |a.orders| ==> r.orders[|a.orders|] == Catalog[choice])
  {
    var acted := RunPlayers(w, turns, 0);
    acted.(orders := Replenish(acted.orders, fires, choice))
  }

  /** What holds of the world between ticks. */
  ghost predicate ValidWorld(w: World)
  {
    && AllValid(w.tiles)
    && (forall j :: 0 <= j < |w.players| ==> HoldsValid(w.players[j]))
    && |w.orders| <= MaxPending
  }

  lemma {:induction false} RunPlayersPreservesValid(w: World, turns: seq<Turn>, from: nat)
    requires |turns| == |w.players| && from <= |w.players|
    requires ValidWorld(w)
    ensures ValidWorld(RunPlayers(w, turns, from))
    decreases |w.players| - from
  {
    if from < |w.players| {
      PlayerWorkPreservesValid(w.players[from], turns[from], w.tiles, w.orders);
      var next := TurnOf(w, turns, from);
      assert ValidWorld(next);
      RunPlayersPreservesValid(next, turns, from + 1);
    }
  }

  /** Every tick keeps the world valid: plates keep their invariant, boards and
      sinks keep consistent progress, and at most five orders are pending. */
  lemma TickPreservesValid(w: World, turns: seq<Turn>, fires: bool, choice: nat)
    requires |turns| == |w.players| && choice < |Catalog|
    requires ValidWorld(w)
    ensures ValidWorld(Tick(w, turns, fires, choice))
  {
    RunPlayersPreservesValid(w, turns, 0);
  }

  /** The game starts in a valid world. */
  lemma InitialWorldValid()
    ensures ValidWorld(InitialWorld())
  {
  }

  /** One tick of a script: every player's turn, and the two random draws. */
  type Step = (seq<Turn>, bool, nat)

  /** `n` ticks; `script` supplies each tick's turns and random draws. */
  function Run(w: World, script: seq<Step>): (r: World)
    requires forall t :: 0 <= t < |script| ==> |script[t].0| == |w.players| && script[t].2 < |Catalog|
    ensures |r.players| == |w.players|
    ensures SameLayout(r.tiles, w.tiles)
    decreases |script|
  {
    if |script| == 0 then w
    else
      var next := Tick(w, script[0].0, script[0].1, script[0].2);
      Run(next, script[1..])
  }

  /** However the players move and act, the world stays valid. */
  lemma {:induction false} RunPreservesValid(w: World, script: seq<Step>)
    requires forall t :: 0 <= t < |script| ==> |script[t].0| == |w.players| && script[t].2 < |Catalog|
    requires ValidWorld(w)
    ensures ValidWorld(Run(w, script))
    decreases |script|
  {
    if |script| > 0 {
      TickPreservesValid(w, script[0].0, script[0].1, script[0].2);
      var next := Tick(w, script[0].0, script[0].1, script[0].2);
      RunPreservesValid(next, script[1..]);
    }
  }

  // ------------------------------------------------------------ scenarios

  /** Every order the game can ask for is listed in ascending name order,
      which the exit's comparison with sorted plate names requires. */
  lemma OrdersAreSorted()
    ensures forall t :: 0 <= t < |Catalog| ==> StrictlySorted(Catalog[t])
    ensures forall t :: 0 <= t < |InitialOrders| ==> StrictlySorted(InitialOrders[t])
  {
  }

  /** Each catalog order is met by a plate holding just its ingredients. */
  lemma CatalogOrdersSatisfiable(s: Station)
    requires s.kind.Exit?
    ensures Drop(s, CleanPlate(map["choppedLettuce" := ChoppedLettuce]), [Catalog[0]]).accepted
    ensures Drop(s, InitialPlate(), [Catalog[1]]).accepted
  {
    var single := CleanPlate(map["choppedLettuce" := ChoppedLettuce]);
    SortedIsUnique(PlateNames(single), ["choppedLettuce"]);
    SaladDelivers(s, InitialPlate(), [Catalog[1]]);
  }

  /** The sixth station is the exit, owing no dirty plates. */
  lemma InitialExit()
    ensures InitialTiles()[5] == Station(90, 10, Exit(0))
  {
  }

  /** The first counter's starting plate delivered at the exit meets the
      starting order: it is accepted, the order list empties, one dirty plate
      is owed. */
  lemma InitialPlateDelivers()
    ensures var d := Drop(InitialTiles()[5], InitialPlate(), InitialOrders);
      d.accepted && d.orders == [] && d.station.kind == Exit(1)
  {
    InitialExit();
    InitialPlateDeliversAt(InitialTiles()[5]);
  }

  lemma InitialPlateDeliversAt(exit: Station)
    requires exit == Station(90, 10, Exit(0))
    ensures var d := Drop(exit, InitialPlate(), InitialOrders);
      d.accepted && d.orders == [] && d.station.kind == Exit(1)
  {
    SaladDelivers(exit, InitialPlate(), InitialOrders);
  }

  /** The plate `InitialPlateDelivers` delivers is the one on the first counter. */
  lemma InitialCounterPlate()
    ensures InitialTiles()[7].kind == Counter(Some(InitialPlate()))
  {
  }

  /** The starting board and sink each hold something to work on, a quarter
      done, and finish after the remaining 135 ticks. */
  lemma InitialBoardAndSink()
    ensures InitialTiles()[2].kind == ChoppingBoard(Some(Lettuce), 45) && Lettuce.CanCut()
    ensures InitialTiles()[6].kind == Sink(Some(DirtyPlate), 45) && DirtyPlate.CanWash()
    ensures WorkFor(InitialTiles()[2], 135).kind == ChoppingBoard(Some(ChoppedLettuce), 0)
    ensures WorkFor(InitialTiles()[6], 135).kind == Sink(Some(CleanPlate(map[])), 0)
  {
    BoardCompletesCut(InitialTiles()[2]);
    SinkCompletesWash(InitialTiles()[6]);
  }

  /**
   A player just above the tomato spawner reaches it and nothing else. The
   collision step never lets a player onto a station, and the row of counters
   below leaves only this side open; from (58, -6) the sprite's centre is 16
   from the spawner's centre and more than 20 from every other station.
   */
  lemma TomatoSpawnerInReach()
    ensures InitialTiles()[3].kind == TomatoSpawner
    ensures Target(Player(58, -6, None, false), InitialTiles()) == Some(3)
  {
    var tiles := InitialTiles();
    forall j | 0 <= j < |tiles| && j != 3
      ensures DistTo(tiles[j], 66, 2) > 400
    {
      var (cx, cy) := Position(tiles[j]);
      if j < 7 {
        assert cy == 18 && (cx <= 50 || cx >= 82);
      } else {
        assert cy == 34;
      }
    }
    assert DistTo(tiles[3], 66, 2) == 256;
    assert IsNearest(tiles, 66, 2, MaxWorkDist, 3);
    NearbyTileIsNearest(tiles, 66, 2, MaxWorkDist, 3);
  }

  /** An empty-handed player above the tomato spawner who presses interact
      holds a fresh tomato; the spawner stays as it was. */
  lemma TakeTomato()
    ensures var r := Interact(Player(58, -6, None, false), InitialTiles(), InitialOrders);
      r.player.holding == Some(Tomato) && r.tiles == InitialTiles() && r.orders == InitialOrders
  {
    var p := Player(58, -6, None, false);
    var tiles := InitialTiles();
    TomatoSpawnerInReach();
    var r := Interact(p, tiles, InitialOrders);
    assert PickUp(tiles[3]) == PickedUp(Some(Tomato), tiles[3]);
    assert forall j :: 0 <= j < |tiles| ==> r.tiles[j] == tiles[j];
  }

  /** Standing still above the exit and pressing interact. */
  const DeliverTurn := Turn(Input(0.0, 0.0, true, false), 90, -6)

  /** The player above the exit hands over a plate of chopped lettuce,
      meeting the first pending order. */
  lemma DeliverLettuce(plate: Item, orders: seq<Order>)
    requires plate.CleanPlate? && plate.contents.Keys == {"choppedLettuce"}
    requires |orders| > 0 && orders[0] == ["choppedLettuce"]
    ensures PlayerWork(Player(90, -6, Some(plate), false), DeliverTurn, [Station(90, 10, Exit(0))], orders)
      == Stepped(Player(90, -6, None, false), [Station(90, 10, Exit(1))], orders[1..])
  {
    var tiles := [Station(90, 10, Exit(0))];
    var p := Player(90, -6, Some(plate), false);
    SortedIsUnique(PlateNames(plate), ["choppedLettuce"]);
    assert FirstMatch(orders, PlateNames(plate)) == Some(0);
    NearbyTileIsNearest(tiles, 98, 2, MaxWorkDist, 0);
    assert Target(p, tiles) == Some(0);
  }

  /** One player above a lone exit, holding a plate. */
  function DeliveryWorld(plate: Item, orders: seq<Order>): World
  {
    World([Station(90, 10, Exit(0))], [Player(90, -6, Some(plate), false)], orders)
  }

  lemma DeliveryRound(plate: Item, orders: seq<Order>)
    requires plate.CleanPlate? && plate.contents.Keys == {"choppedLettuce"}
    requires |orders| > 0 && orders[0] == ["choppedLettuce"]
    ensures RunPlayers(DeliveryWorld(plate, orders), [DeliverTurn], 0)
      == World([Station(90, 10, Exit(1))], [Player(90, -6, None, false)], orders[1..])
  {
  }

  /**
   Players act before orders are replenished: with five orders pending, a
   delivery in this tick makes room for a new order in the same tick.
   */
  lemma DeliveryMakesRoomSameTick(plate: Item, rest: seq<Order>, choice: nat)
    requires plate.CleanPlate? && plate.contents.Keys == {"choppedLettuce"}
    requires |rest| == MaxPending - 1 && choice < |Catalog|
    ensures var r := Tick(DeliveryWorld(plate, [["choppedLettuce"]] + rest), [DeliverTurn], true, choice);
      r.orders == rest + [Catalog[choice]] && r.players[0].holding.None?
  {
  }
}
