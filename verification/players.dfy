/**
 The interaction half of player.go: finding the station a player is next to
 (`getNearbyTile`), and what one tick of `player.work` does once the player
 has moved: interact (pick up or drop), keep or drop the "working" flag, and
 work the nearby station.
 */
module Players {

  import opened Maybe
  import opened Items
  import opened Tiles

  /** How close a station must be to be interacted with or worked. */
  const MaxWorkDist: nat := 20

  /** A player's sprite is 16 pixels square: from its top-left corner to its
      centre, where distances are measured from. */
  const CentreOffset := 8

  /** The square of the Euclidean distance between two points. Comparing
      squares orders non-negative distances the same way. */
  function Dist2(x1: int, y1: int, x2: int, y2: int): (r: nat)
    ensures r == 0 <==> x1 == x2 && y1 == y2
    ensures r >= (x2 - x1) * (x2 - x1) && r >= (y2 - y1) * (y2 - y1)
  {
    (x2 - x1) * (x2 - x1) + (y2 - y1) * (y2 - y1)
  }

  /** Non-negative reals are ordered as their squares are. */
  lemma SquaresOrderDistances(d: real, e: real)
    requires 0.0 <= d && 0.0 <= e
    ensures d < e <==> d * d < e * e
  {
    if d < e {
      var gap, sum := e - d, e + d;
      assert gap > 0.0 && sum > 0.0;
      assert gap * sum > 0.0;
      assert e * e - d * d == gap * sum;
    } else {
      var gap, sum := d - e, d + e;
      assert gap >= 0.0 && sum >= 0.0;
      assert gap * sum >= 0.0;
      assert d * d - e * e == gap * sum;
    }
  }

  /**
   `getDistance` returns the non-negative square root of `Dist2`. Comparing
   two such distances, or one with the bound `maxDist`, with `<` gives the
   same answer as comparing their squares.
   */
  lemma DistancesCompareAsSquares(d: real, e: real, a: nat, b: nat)
    requires 0.0 <= d && d * d == a as real
    requires 0.0 <= e && e * e == b as real
    ensures d < e <==> a < b
  {
    SquaresOrderDistances(d, e);
  }

  function DistTo(s: Station, x: int, y: int): nat
  {
    Dist2(x, y, Position(s).0, Position(s).1)
  }

  /**
   The reference meaning of "the nearby tile": station `k` is strictly within
   `maxDist` of (x, y), no station is nearer, and every station listed before
   it is strictly farther.
   */
  ghost predicate IsNearest(tiles: seq<Station>, x: int, y: int, maxDist: nat, k: nat)
  {
    && k < |tiles|
    && DistTo(tiles[k], x, y) < maxDist * maxDist
    && (forall j :: 0 <= j < |tiles| ==> DistTo(tiles[k], x, y) <= DistTo(tiles[j], x, y))
    && (forall j :: 0 <= j < k ==> DistTo(tiles[k], x, y) < DistTo(tiles[j], x, y))
  }

  /**
   `getNearbyTile`: a scan over the stations that keeps the nearest one so far,
   starting from the bound `maxDist` and replacing the best only on a strictly
   smaller distance. Here the scan is written as a recursion over prefixes:
   the result for `tiles` is the result for all but the last station, unless
   the last one is strictly nearer than that (or than the bound).
   */
  function NearbyTile(tiles: seq<Station>, x: int, y: int, maxDist: nat): (r: Option<nat>)
    ensures r.None? <==> forall j :: 0 <= j < |tiles| ==> DistTo(tiles[j], x, y) >= maxDist * maxDist
    ensures r.Some? ==> IsNearest(tiles, x, y, maxDist, r.value)
    decreases |tiles|
  {
    if |tiles| == 0 then None
    else
      var last := |tiles| - 1;
      var prefix := tiles[..last];
      var best := NearbyTile(prefix, x, y, maxDist);
      var closestDist := if best.None? then maxDist * maxDist else DistTo(tiles[best.value], x, y);
      assert forall j :: 0 <= j < last ==> tiles[j] == prefix[j];
      if DistTo(tiles[last], x, y) < closestDist then Some(last) else best
  }

  /** The scan finds exactly the reference nearest station: `getNearbyTile`
      returns `k` if and only if `k` is the nearest, earliest on ties. */
  lemma NearbyTileIsNearest(tiles: seq<Station>, x: int, y: int, maxDist: nat, k: nat)
    ensures NearbyTile(tiles, x, y, maxDist) == Some(k) <==> IsNearest(tiles, x, y, maxDist, k)
  {
  }

  /** A station right at the query point is the nearby one, unless an
      earlier station is there too. */
  lemma StationAtPointIsNearest(tiles: seq<Station>, x: int, y: int, maxDist: nat, k: nat)
    requires k < |tiles| && Position(tiles[k]) == (x, y) && maxDist > 0
    requires forall j :: 0 <= j < k ==> Position(tiles[j]) != (x, y)
    ensures NearbyTile(tiles, x, y, maxDist) == Some(k)
  {
  }

  /** Only where the stations are matters to the search, not what they hold. */
  lemma {:induction false} NearbyTileOnlyReadsPositions(a: seq<Station>, b: seq<Station>, x: int, y: int, maxDist: nat)
    requires |a| == |b|
    requires forall j :: 0 <= j < |a| ==> Position(a[j]) == Position(b[j])
    ensures NearbyTile(a, x, y, maxDist) == NearbyTile(b, x, y, maxDist)
    decreases |a|
  {
  }

  /** One tick of input, as the controllers deliver it; `interact` and
      `startWorking` are already edge-triggered. */
  datatype Input = Input(moveHorizontal: real, moveVertical: real, interact: bool, startWorking: bool)

  predicate Moving(input: Input)
  {
    !(input.moveHorizontal == 0.0 && input.moveVertical == 0.0)
  }

  /** (x, y) is the top-left corner of the player's sprite. */
  datatype Player = Player(x: int, y: int, holding: Option<Item>, working: bool)

  /** The state one player's action leaves behind. */
  datatype Stepped = Stepped(player: Player, tiles: seq<Station>, orders: seq<Order>)

  /** Every station kept its kind and place, only their state may differ. */
  predicate SameLayout(a: seq<Station>, b: seq<Station>)
  {
    |a| == |b| && forall j :: 0 <= j < |a| ==> SameStation(a[j], b[j])
  }

  /** The station the player at (x, y) is next to. */
  function Target(p: Player, tiles: seq<Station>): Option<nat>
  {
    NearbyTile(tiles, p.x + CentreOffset, p.y + CentreOffset, MaxWorkDist)
  }

  /**
   The `interact` branch of `player.work`. With no station in reach nothing
   happens. Empty-handed, the player takes whatever the station hands out
   (possibly nothing). Holding an item, the player offers it: if the station
   accepts, the hands are empty afterwards, otherwise the player keeps the
   item as the station left it. Only the target station changes.
   */
  function Interact(p: Player, tiles: seq<Station>, orders: seq<Order>): (r: Stepped)
    ensures SameLayout(r.tiles, tiles)
    ensures |r.orders| <= |orders|
    ensures r.player.x == p.x && r.player.y == p.y && r.player.working == p.working
    ensures Target(p, tiles).None? ==> r == Stepped(p, tiles, orders)
    ensures Target(p, tiles).Some? ==>
      var k := Target(p, tiles).value;
      && (forall j :: 0 <= j < |tiles| && j != k ==> r.tiles[j] == tiles[j])
      && (p.holding.None? ==>
            r.player.holding == PickUp(tiles[k]).item && r.tiles[k] == PickUp(tiles[k]).station
            && r.orders == orders)
      && (p.holding.Some? ==>
            var d := Drop(tiles[k], p.holding.value, orders);
            && (r.player.holding.None? <==> d.accepted)
            && (!d.accepted ==> r.player.holding == Some(d.held))
            && r.tiles[k] == d.station && r.orders == d.orders)
  {
    match Target(p, tiles)
    case None => Stepped(p, tiles, orders)
    case Some(k) =>
      if p.holding.None? then
        var picked := PickUp(tiles[k]);
        Stepped(p.(holding := picked.item), tiles[k := picked.station], orders)
      else
        var d := Drop(tiles[k], p.holding.value, orders);
        var holding := if d.accepted then None else Some(d.held);
        Stepped(p.(holding := holding), tiles[k := d.station], d.orders)
  }

  /**
   The working flag after one tick: any movement stops work, pressing the work
   button starts it (and wins over movement in the same tick, being applied
   later), and otherwise it carries over.
   */
  function NextWorking(working: bool, input: Input): (r: bool)
    ensures input.startWorking ==> r
    ensures !input.startWorking && Moving(input) ==> !r
    ensures !input.startWorking && !Moving(input) ==> r == working
  {
    var stillWorking := if Moving(input) then false else working;
    if input.startWorking then true else stillWorking
  }

  /** The working flag after a run of inputs, one per tick. */
  function WorkingAfter(working: bool, inputs: seq<Input>): bool
    decreases |inputs|
  {
    if |inputs| == 0 then working
    else NextWorking(WorkingAfter(working, inputs[..|inputs| - 1]), inputs[|inputs| - 1])
  }

  /** Whether input `i` presses work and no later input moves. */
  ghost predicate StartedAndStill(inputs: seq<Input>, i: int)
  {
    0 <= i < |inputs| && inputs[i].startWorking && forall j :: i < j < |inputs| ==> !Moving(inputs[j])
  }

  /**
   What the flag means over a run: the player is working exactly when work
   was pressed at some tick with no movement since, or was working at the
   start and has not moved at all.
   */
  lemma {:induction false} WorkingIsLastEvent(working: bool, inputs: seq<Input>)
    ensures WorkingAfter(working, inputs) <==>
      (exists i :: StartedAndStill(inputs, i))
      || (working && forall j :: 0 <= j < |inputs| ==> !Moving(inputs[j]))
    decreases |inputs|
  {
    if |inputs| > 0 {
      var n := |inputs| - 1;
      var prefix := inputs[..n];
      var last := inputs[n];
      WorkingIsLastEvent(working, prefix);
      assert forall j :: 0 <= j < n ==> prefix[j] == inputs[j];
      if last.startWorking {
        assert StartedAndStill(inputs, n);
      } else if Moving(last) {
        assert forall i :: !StartedAndStill(inputs, i) by {
          forall i ensures !StartedAndStill(inputs, i) {
            if 0 <= i < n {
              assert i < n && Moving(inputs[n]);
            }
          }
        }
      } else {
        assert forall i :: StartedAndStill(inputs, i) <==> StartedAndStill(prefix, i);
      }
    }
  }

  /** The `working` branch: exactly the nearby station, if any, is worked. */
  function WorkNearby(p: Player, tiles: seq<Station>): (r: seq<Station>)
    ensures SameLayout(r, tiles)
    ensures Target(p, tiles).None? ==> r == tiles
    ensures Target(p, tiles).Some? ==>
      var k := Target(p, tiles).value;
      r[k] == Work(tiles[k]) && forall j :: 0 <= j < |tiles| && j != k ==> r[j] == tiles[j]
  {
    match Target(p, tiles)
    case None => tiles
    case Some(k) => tiles[k := Work(tiles[k])]
  }

  /**
   What one player does in one tick: the controller's input, and where the
   movement step of `player.work` (collisions included) left the top-left
   corner of the player's sprite.
   */
  datatype Turn = Turn(input: Input, x: int, y: int)

  /** The player after the movement step: at the new place, and no longer
      working if the stick was moved. */
  function Moved(p: Player, t: Turn): Player
  {
    Player(t.x, t.y, p.holding, if Moving(t.input) then false else p.working)
  }

  /** The `interact` branch taken or skipped. */
  function Acted(p: Player, input: Input, tiles: seq<Station>, orders: seq<Order>): Stepped
  {
    if input.interact then Interact(p, tiles, orders) else Stepped(p, tiles, orders)
  }

  /**
   `player.work`: move, interact if asked, set the flag if asked, and work the
   nearby station while the flag is set. The hands and the orders are what the
   interaction left; the stations too, except that while working exactly the
   station in reach of the new place, the one interacted with, is worked once.
   */
  function PlayerWork(p: Player, t: Turn, tiles: seq<Station>, orders: seq<Order>): (r: Stepped)
    ensures SameLayout(r.tiles, tiles)
    ensures |r.orders| <= |orders|
    ensures r.player.x == t.x && r.player.y == t.y
    ensures r.player.working == NextWorking(p.working, t.input)
    ensures !t.input.interact ==> r.player.holding == p.holding && r.orders == orders
    ensures !t.input.interact && !r.player.working ==> r.tiles == tiles
    ensures var a := Acted(Moved(p, t), t.input, tiles, orders);
      && r.player.holding == a.player.holding && r.orders == a.orders
      && (!r.player.working ==> r.tiles == a.tiles)
      && (r.player.working && Target(Moved(p, t), tiles).None? ==> r.tiles == a.tiles)
      && (r.player.working && Target(Moved(p, t), tiles).Some? ==>
            var k := Target(Moved(p, t), tiles).value;
            r.tiles == a.tiles[k := Work(a.tiles[k])])
  {
    var moved := Moved(p, t);
    var acted := Acted(moved, t.input, tiles, orders);
    var player := acted.player.(working := if t.input.startWorking then true else acted.player.working);
    SameLayoutSameTarget(player, moved, acted.tiles, tiles);
    if player.working then Stepped(player, WorkNearby(player, acted.tiles), acted.orders)
    else Stepped(player, acted.tiles, acted.orders)
  }

  /** Same layout means the same target. */
  lemma SameLayoutSameTarget(p: Player, q: Player, a: seq<Station>, b: seq<Station>)
    requires SameLayout(a, b) && p.x == q.x && p.y == q.y
    ensures Target(p, a) == Target(q, b)
  {
  }

  /** Interacting and then working in one tick acts on the same station. */
  lemma WorkTargetsInteractedStation(p: Player, tiles: seq<Station>, orders: seq<Order>)
    ensures Target(Interact(p, tiles, orders).player, Interact(p, tiles, orders).tiles) == Target(p, tiles)
  {
  }

  ghost predicate AllValid(tiles: seq<Station>)
  {
    forall j :: 0 <= j < |tiles| ==> ValidStation(tiles[j])
  }

  ghost predicate HoldsValid(p: Player)
  {
    p.holding.Some? ==> ValidItem(p.holding.value)
  }

  /** A player's tick keeps every station and the player's hands valid. */
  lemma PlayerWorkPreservesValid(p: Player, t: Turn, tiles: seq<Station>, orders: seq<Order>)
    requires AllValid(tiles) && HoldsValid(p)
    ensures AllValid(PlayerWork(p, t, tiles, orders).tiles)
    ensures HoldsValid(PlayerWork(p, t, tiles, orders).player)
  {
    var acted := Acted(Moved(p, t), t.input, tiles, orders);
    ActedPreservesValid(Moved(p, t), t.input, tiles, orders);
    var player := acted.player.(working := if t.input.startWorking then true else acted.player.working);
    WorkNearbyPreservesValid(player, acted.tiles);
  }

  /** Interacting, or not, keeps every station and the player's hands valid. */
  lemma ActedPreservesValid(p: Player, input: Input, tiles: seq<Station>, orders: seq<Order>)
    requires AllValid(tiles) && HoldsValid(p)
    ensures AllValid(Acted(p, input, tiles, orders).tiles)
    ensures HoldsValid(Acted(p, input, tiles, orders).player)
  {
    if input.interact {
      match Target(p, tiles)
      case None =>
      case Some(k) =>
        if p.holding.None? {
          PickUpPreservesValid(tiles[k]);
        } else {
          DropPreservesValid(tiles[k], p.holding.value, orders);
        }
    }
  }

  /** Working the station in reach keeps every station valid. */
  lemma WorkNearbyPreservesValid(p: Player, tiles: seq<Station>)
    requires AllValid(tiles)
    ensures AllValid(WorkNearby(p, tiles))
  {
    match Target(p, tiles)
    case None =>
    case Some(k) => WorkPreservesValid(tiles[k]);
  }
}
