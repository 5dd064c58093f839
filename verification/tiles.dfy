/**
 The stations of tiles.go. Every station answers `pickUp`, `drop` and `work`
 (the `tile` interface); Go mutates the station, the held item and the global
 order list in place, so here each operation returns the new values instead.
 */
module Tiles {

  import opened Maybe
  import opened Items
  import opened StringOrder

  /** An order lists ingredient names; Go keeps items there but only ever
      reads their names. */
  type Order = seq<string>

  /** Ticks of work that complete a cut or a wash: 1/3/60 of progress per tick. */
  const WorkTicks := 180

  /** (x, y) is the top-left corner of the station's 16-by-16 tile; it never
      changes. */
  datatype Station = Station(x: int, y: int, kind: Kind)

  /** What kind of station it is, with the state that kind keeps. */
  datatype Kind =
    | Wall
    | Counter(contents: Option<Item>)
    | TomatoSpawner
    | LettuceSpawner
    | Exit(numDirty: nat)
    | Trash
    | ChoppingBoard(contents: Option<Item>, progress: nat)
    | Sink(contents: Option<Item>, progress: nat)

  /** `getPosition`: the centre of the station's 16-by-16 tile. */
  function Position(s: Station): (r: (int, int))
    ensures 2 * r.0 == s.x + (s.x + 16) && 2 * r.1 == s.y + (s.y + 16)
  {
    (s.x + 8, s.y + 8)
  }

  /** The same kind of station at the same place. */
  predicate SameStation(a: Station, b: Station)
  {
    && a.x == b.x && a.y == b.y
    && a.kind.Wall? == b.kind.Wall? && a.kind.Counter? == b.kind.Counter?
    && a.kind.TomatoSpawner? == b.kind.TomatoSpawner? && a.kind.LettuceSpawner? == b.kind.LettuceSpawner?
    && a.kind.Exit? == b.kind.Exit? && a.kind.Trash? == b.kind.Trash?
    && a.kind.ChoppingBoard? == b.kind.ChoppingBoard? && a.kind.Sink? == b.kind.Sink?
  }

  /**
   What stays true of a station between ticks: what it holds satisfies the
   plate invariant, and a board or sink has progress only while it holds
   something it is working on, and never a completed amount.
   */
  ghost predicate ValidStation(s: Station)
  {
    match s.kind
    case Counter(c) => c.Some? ==> ValidItem(c.value)
    case ChoppingBoard(c, p) =>
      && p < WorkTicks
      && (c.Some? ==> ValidItem(c.value))
      && (p > 0 ==> c.Some? && c.value.CanCut())
    case Sink(c, p) =>
      && p < WorkTicks
      && (c.Some? ==> ValidItem(c.value))
      && (p > 0 ==> c.Some? && c.value.CanWash())
    case _ => true
  }

  // ---------------------------------------------------------------- pickUp

  datatype PickedUp = PickedUp(item: Option<Item>, station: Station)

  /**
   `pickUp`. Counters, boards and sinks hand over what they hold and are left
   empty (boards and sinks with progress 0); spawners hand out a fresh raw
   ingredient and stay as they are; the exit hands out a dirty plate while it
   owes one; walls and the trash hand out nothing.
   */
  function PickUp(s: Station): (r: PickedUp)
    ensures SameStation(r.station, s)
    ensures r.item.None? ==> r.station == s
    ensures s.kind.Counter? ==> r.item == s.kind.contents && r.station.kind == Counter(None)
    ensures s.kind.ChoppingBoard? ==> r.item == s.kind.contents && r.station.kind.contents.None?
    ensures s.kind.ChoppingBoard? && s.kind.contents.Some? ==> r.station.kind == ChoppingBoard(None, 0)
    ensures s.kind.Sink? ==> r.item == s.kind.contents && r.station.kind.contents.None?
    ensures s.kind.Sink? && s.kind.contents.Some? ==> r.station.kind == Sink(None, 0)
    ensures s.kind.TomatoSpawner? ==> r.item == Some(Tomato) && r.station == s
    ensures s.kind.LettuceSpawner? ==> r.item == Some(Lettuce) && r.station == s
    ensures s.kind.Exit? ==> (r.item.Some? <==> s.kind.numDirty > 0)
    ensures s.kind.Exit? && r.item.Some? ==>
      r.item == Some(DirtyPlate) && r.station.kind.numDirty + 1 == s.kind.numDirty
    ensures s.kind.Wall? || s.kind.Trash? ==> r.item.None?
  {
    match s.kind
    case Wall => PickedUp(None, s)
    case Counter(c) =>
      if c.Some? then PickedUp(c, s.(kind := Counter(None))) else PickedUp(None, s)
    case TomatoSpawner => PickedUp(Some(Tomato), s)
    case LettuceSpawner => PickedUp(Some(Lettuce), s)
    case Exit(n) =>
      if n > 0 then PickedUp(Some(DirtyPlate), s.(kind := Exit(n - 1))) else PickedUp(None, s)
    case Trash => PickedUp(None, s)
    case ChoppingBoard(c, _) =>
      if c.Some? then PickedUp(c, s.(kind := ChoppingBoard(None, 0))) else PickedUp(None, s)
    case Sink(c, _) =>
      if c.Some? then PickedUp(c, s.(kind := Sink(None, 0))) else PickedUp(None, s)
  }

  /** Picking up keeps the station valid and hands out a valid item. */
  lemma PickUpPreservesValid(s: Station)
    requires ValidStation(s)
    ensures ValidStation(PickUp(s).station)
    ensures PickUp(s).item.Some? ==> ValidItem(PickUp(s).item.value)
  {
  }

  // ------------------------------------------------------------------ drop

  /**
   The outcome of `drop(i)`: whether the station took the item, the item the
   player is left holding should it not have (trash may have emptied a plate),
   the station afterwards, and the order list afterwards.
   */
  datatype Dropped = Dropped(accepted: bool, held: Item, station: Station, orders: seq<Order>)

  /**
   Counter `drop`: an empty counter takes the item; an occupied one takes it
   exactly when what it holds accepts it in `combine`, which only a clean plate
   with room does.
   */
  function CounterDrop(s: Station, i: Item, orders: seq<Order>): (r: Dropped)
    requires s.kind.Counter?
    ensures r.held == i && r.orders == orders && SameStation(r.station, s)
    ensures s.kind.contents.None? ==> r.accepted && r.station.kind == Counter(Some(i))
    ensures s.kind.contents.Some? ==>
      var c := Combine(s.kind.contents.value, i);
      r.accepted == c.ok && r.station.kind == Counter(Some(c.item))
    ensures s.kind.contents.Some? && !s.kind.contents.value.CleanPlate? ==> !r.accepted
    ensures !r.accepted ==> r.station == s
  {
    match s.kind.contents
    case None => Dropped(true, i, s.(kind := Counter(Some(i))), orders)
    case Some(c) =>
      var combined := Combine(c, i);
      Dropped(combined.ok, i, s.(kind := Counter(Some(combined.item))), orders)
  }

  /**
   Chopping board `drop`: only a cuttable item is taken, and only by an empty
   board; an occupied board always refuses, since nothing cuttable may go on a
   plate and nothing but a plate accepts `combine`.
   */
  function BoardDrop(s: Station, i: Item, orders: seq<Order>): (r: Dropped)
    requires s.kind.ChoppingBoard?
    ensures r.held == i && r.orders == orders
    ensures r.accepted <==> i.CanCut() && s.kind.contents.None?
    ensures r.accepted ==> r.station == s.(kind := ChoppingBoard(Some(i), s.kind.progress))
    ensures !r.accepted ==> r.station == s
  {
    if !i.CanCut() then Dropped(false, i, s, orders)
    else match s.kind.contents
      case None => Dropped(true, i, s.(kind := ChoppingBoard(Some(i), s.kind.progress)), orders)
      case Some(c) =>
        var combined := Combine(c, i);
        Dropped(combined.ok, i, s.(kind := ChoppingBoard(Some(combined.item), s.kind.progress)), orders)
  }

  /** Sink `drop`: as the chopping board, gated on washability. */
  function SinkDrop(s: Station, i: Item, orders: seq<Order>): (r: Dropped)
    requires s.kind.Sink?
    ensures r.held == i && r.orders == orders
    ensures r.accepted <==> i.CanWash() && s.kind.contents.None?
    ensures r.accepted ==> r.station == s.(kind := Sink(Some(i), s.kind.progress))
    ensures !r.accepted ==> r.station == s
  {
    if !i.CanWash() then Dropped(false, i, s, orders)
    else match s.kind.contents
      case None => Dropped(true, i, s.(kind := Sink(Some(i), s.kind.progress)), orders)
      case Some(c) =>
        var combined := Combine(c, i);
        Dropped(combined.ok, i, s.(kind := Sink(Some(combined.item), s.kind.progress)), orders)
  }

  /**
   Trash `drop`: a clean plate is emptied but refused, so the player keeps the
   empty plate; a dirty plate is refused untouched; anything else is taken
   (and gone).
   */
  function TrashDrop(s: Station, i: Item, orders: seq<Order>): (r: Dropped)
    requires s.kind.Trash?
    ensures r.station == s && r.orders == orders
    ensures r.accepted <==> !i.CleanPlate? && !i.DirtyPlate?
    ensures i.CleanPlate? ==> r.held == CleanPlate(map[])
    ensures !i.CleanPlate? ==> r.held == i
  {
    if i.CleanPlate? then Dropped(false, CleanPlate(map[]), s, orders)
    else if i.Name() == "dirtyPlate" then Dropped(false, i, s, orders)
    else Dropped(true, i, s, orders)
  }

  /** The plate's ingredient names in ascending order, as the exit compares them. */
  function PlateNames(plate: Item): (r: seq<string>)
    requires plate.CleanPlate?
    ensures StrictlySorted(r)
    ensures forall n :: n in r <==> n in plate.contents
    ensures |r| == |plate.contents|
  {
    Sorted(plate.contents.Keys)
  }

  /**
   Go sorts the names of the plate's items, not its keys. On a valid plate
   every item is stored under its own name, so the two listings coincide.
   */
  lemma PlateNamesAreItemNames(plate: Item)
    requires plate.CleanPlate? && ValidItem(plate)
    ensures PlateNames(plate) == Sorted(set k | k in plate.contents :: plate.contents[k].Name())
  {
    var names := set k | k in plate.contents :: plate.contents[k].Name();
    assert names == plate.contents.Keys;
  }

  /** The exit's comparison of one order with the sorted plate names: same
      length, and equal name at every position. */
  predicate Matches(order: Order, names: seq<string>)
  {
    |order| == |names| && forall ii :: 0 <= ii < |order| ==> order[ii] == names[ii]
  }

  /** The exit's scan: the index of the first order that matches. */
  function FirstMatch(orders: seq<Order>, names: seq<string>): (r: Option<nat>)
    ensures r.None? <==> names !in orders
    ensures r.Some? ==> r.value < |orders| && orders[r.value] == names
    ensures r.Some? ==> forall j :: 0 <= j < r.value ==> orders[j] != names
    decreases |orders|
  {
    if |orders| == 0 then None
    else if Matches(orders[0], names) then
      assert orders[0] == names;
      Some(0)
    else
      var rest := FirstMatch(orders[1..], names);
      assert orders == [orders[0]] + orders[1..];
      if rest.None? then None else Some(rest.value + 1)
  }

  /**
   Exit `drop`: only a clean plate whose sorted names equal some pending order,
   as that order is listed, is delivered. Then the first such order, and only
   it, leaves the list, the others keeping their relative order, and the exit
   owes one more dirty plate. Otherwise nothing changes.
   */
  function ExitDrop(s: Station, i: Item, orders: seq<Order>): (r: Dropped)
    requires s.kind.Exit?
    ensures r.held == i
    ensures r.accepted <==> i.CleanPlate? && PlateNames(i) in orders
    ensures !r.accepted ==> r.station == s && r.orders == orders
    ensures r.accepted ==>
      exists k :: 0 <= k < |orders|
        && orders[k] == PlateNames(i)
        && (forall j :: 0 <= j < k ==> orders[j] != PlateNames(i))
        && r.orders == orders[..k] + orders[k + 1..]
    ensures r.accepted ==> r.station == s.(kind := Exit(s.kind.numDirty + 1))
    ensures r.accepted ==>
      |r.orders| + 1 == |orders| && multiset(r.orders) + multiset{PlateNames(i)} == multiset(orders)
  {
    if !i.CleanPlate? then Dropped(false, i, s, orders)
    else
      var names := PlateNames(i);
      match FirstMatch(orders, names)
      case None => Dropped(false, i, s, orders)
      case Some(k) =>
        RemoveAt(orders, k);
        Dropped(true, i, s.(kind := Exit(s.kind.numDirty + 1)), orders[..k] + orders[k + 1..])
  }

  /** Removing the entry at `k` takes exactly that one entry out of the list. */
  lemma RemoveAt<T>(xs: seq<T>, k: nat)
    requires k < |xs|
    ensures |xs[..k] + xs[k + 1..]| + 1 == |xs|
    ensures multiset(xs[..k] + xs[k + 1..]) + multiset{xs[k]} == multiset(xs)
  {
    assert xs == xs[..k] + [xs[k]] + xs[k + 1..];
  }

  /** `drop` for any station: walls and spawners refuse everything. */
  function Drop(s: Station, i: Item, orders: seq<Order>): (r: Dropped)
    ensures SameStation(r.station, s)
    ensures !s.kind.Exit? ==> r.orders == orders
    ensures |r.orders| <= |orders|
    ensures !s.kind.Trash? ==> r.held == i
    ensures s.kind.Wall? || s.kind.TomatoSpawner? || s.kind.LettuceSpawner? ==> !r.accepted && r.station == s
  {
    match s.kind
    case Counter(_) => CounterDrop(s, i, orders)
    case ChoppingBoard(_, _) => BoardDrop(s, i, orders)
    case Sink(_, _) => SinkDrop(s, i, orders)
    case Trash => TrashDrop(s, i, orders)
    case Exit(_) => ExitDrop(s, i, orders)
    case _ => Dropped(false, i, s, orders)
  }

  /** Dropping a valid item keeps the station valid, and what the player is
      left holding valid. */
  lemma DropPreservesValid(s: Station, i: Item, orders: seq<Order>)
    requires ValidStation(s) && ValidItem(i)
    ensures ValidStation(Drop(s, i, orders).station)
    ensures ValidItem(Drop(s, i, orders).held)
  {
    if s.kind.Counter? && s.kind.contents.Some? {
      CombinePreservesValid(s.kind.contents.value, i);
    }
  }

  // ------------------------------------------------------------------ work

  /** Whether a board or sink holds something its `work` acts on. */
  predicate Workable(k: Kind)
  {
    match k
    case ChoppingBoard(c, _) => c.Some? && c.value.CanCut()
    case Sink(c, _) => c.Some? && c.value.CanWash()
    case _ => false
  }

  /**
   Chopping board `work`: with a cuttable item it advances by one tick, and on
   reaching `WorkTicks` starts again from 0 holding the cut product; an empty
   board or one holding anything else is left as it is.
   */
  function BoardWork(s: Station): (r: Station)
    requires s.kind.ChoppingBoard?
    ensures SameStation(r, s)
    ensures !Workable(s.kind) ==> r == s
    ensures Workable(s.kind) && s.kind.progress + 1 < WorkTicks ==>
      r == s.(kind := ChoppingBoard(s.kind.contents, s.kind.progress + 1))
    ensures Workable(s.kind) && s.kind.progress + 1 >= WorkTicks ==>
      r.kind == ChoppingBoard(CompleteCut(s.kind.contents.value), 0)
      && r.kind.contents.value.CanCombine()
  {
    match s.kind
    case ChoppingBoard(c, progress) =>
      if c.None? || !c.value.CanCut() then s
      else
        var p := progress + 1;
        if p >= WorkTicks then s.(kind := ChoppingBoard(CompleteCut(c.value), 0))
        else s.(kind := ChoppingBoard(c, p))
  }

  /** Sink `work`: as the chopping board, washing a dirty plate into an empty
      clean one. */
  function SinkWork(s: Station): (r: Station)
    requires s.kind.Sink?
    ensures SameStation(r, s)
    ensures !Workable(s.kind) ==> r == s
    ensures Workable(s.kind) && s.kind.progress + 1 < WorkTicks ==>
      r == s.(kind := Sink(s.kind.contents, s.kind.progress + 1))
    ensures Workable(s.kind) && s.kind.progress + 1 >= WorkTicks ==>
      r.kind == Sink(Some(CleanPlate(map[])), 0)
  {
    match s.kind
    case Sink(c, progress) =>
      if c.None? || !c.value.CanWash() then s
      else
        var p := progress + 1;
        if p >= WorkTicks then s.(kind := Sink(CompleteWash(c.value), 0))
        else s.(kind := Sink(c, p))
  }

  /** `work` for any station: every other kind has the no-op `baseTile.work`. */
  function Work(s: Station): (r: Station)
    ensures SameStation(r, s)
    ensures !Workable(s.kind) ==> r == s
  {
    match s.kind
    case ChoppingBoard(_, _) => BoardWork(s)
    case Sink(_, _) => SinkWork(s)
    case _ => s
  }

  lemma WorkPreservesValid(s: Station)
    requires ValidStation(s)
    ensures ValidStation(Work(s))
  {
  }

  /** `n` ticks of sustained work. */
  function WorkFor(s: Station, n: nat): Station
    decreases n
  {
    if n == 0 then s else WorkFor(Work(s), n - 1)
  }

  lemma {:induction false} WorkForSplit(s: Station, m: nat, n: nat)
    ensures WorkFor(s, m + n) == WorkFor(WorkFor(s, m), n)
    decreases m
  {
    if m > 0 {
      WorkForSplit(Work(s), m - 1, n);
    }
  }

  /** The progress of a board or sink (0 for any other station). */
  function Progress(k: Kind): nat
  {
    match k
    case ChoppingBoard(_, p) => p
    case Sink(_, p) => p
    case _ => 0
  }

  /** A board or sink with its progress set to `p`. */
  function WithProgress(k: Kind, p: nat): Kind
  {
    match k
    case ChoppingBoard(c, _) => ChoppingBoard(c, p)
    case Sink(c, _) => Sink(c, p)
    case _ => k
  }

  /**
   Sustained work on a board or sink holding something it works on: the
   progress counts the ticks while it stays below `WorkTicks`, and the item is
   not yet transformed.
   */
  lemma {:induction false} WorkCounts(s: Station, n: nat)
    requires Workable(s.kind)
    requires Progress(s.kind) + n < WorkTicks
    ensures WorkFor(s, n) == s.(kind := WithProgress(s.kind, Progress(s.kind) + n))
    decreases n
  {
    if n > 0 {
      WorkCounts(Work(s), n - 1);
    }
  }

  /**
   The cut completes after exactly `WorkTicks - progress` ticks: the board then
   holds the chopped ingredient with progress 0, and picking up returns it.
   From an empty board that is 180 ticks.
   */
  lemma BoardCompletesCut(s: Station)
    requires s.kind.ChoppingBoard? && Workable(s.kind)
    requires s.kind.progress < WorkTicks
    ensures var done := WorkFor(s, WorkTicks - s.kind.progress);
      && done.kind == ChoppingBoard(CompleteCut(s.kind.contents.value), 0)
      && PickUp(done).item == CompleteCut(s.kind.contents.value)
      && PickUp(done).station.kind == ChoppingBoard(None, 0)
  {
    var n := WorkTicks - s.kind.progress - 1;
    WorkCounts(s, n);
    WorkForSplit(s, n, 1);
  }

  /** The wash completes after exactly `WorkTicks - progress` ticks, leaving an
      empty clean plate in the sink with progress 0. */
  lemma SinkCompletesWash(s: Station)
    requires s.kind.Sink? && Workable(s.kind)
    requires s.kind.progress < WorkTicks
    ensures WorkFor(s, WorkTicks - s.kind.progress).kind == Sink(Some(CleanPlate(map[])), 0)
  {
    var n := WorkTicks - s.kind.progress - 1;
    WorkCounts(s, n);
    WorkForSplit(s, n, 1);
  }

  // ------------------------------------------------------- round trips etc.

  /** Putting an item on an empty counter and taking it back restores both. */
  lemma CounterRoundTrip(s: Station, i: Item, orders: seq<Order>)
    requires s.kind == Counter(None)
    ensures Drop(s, i, orders).accepted
    ensures PickUp(Drop(s, i, orders).station) == PickedUp(Some(i), s)
  {
  }

  /** Taking from an occupied counter and putting the item back restores it. */
  lemma CounterPickUpRoundTrip(s: Station, orders: seq<Order>)
    requires s.kind.Counter? && s.kind.contents.Some?
    ensures Drop(PickUp(s).station, PickUp(s).item.value, orders) == Dropped(true, s.kind.contents.value, s, orders)
  {
  }

  /** An unworked cuttable item put on an empty board comes back unchanged. */
  lemma BoardRoundTrip(s: Station, i: Item, orders: seq<Order>)
    requires s.kind == ChoppingBoard(None, 0) && i.CanCut()
    ensures Drop(s, i, orders).accepted
    ensures PickUp(Drop(s, i, orders).station) == PickedUp(Some(i), s)
  {
  }

  /** A delivery followed by a pick-up at the exit hands out a dirty plate and
      leaves the exit owing what it owed before. */
  lemma ExitDeliveryRoundTrip(s: Station, i: Item, orders: seq<Order>)
    requires s.kind.Exit? && Drop(s, i, orders).accepted
    ensures PickUp(Drop(s, i, orders).station) == PickedUp(Some(DirtyPlate), s)
  {
  }

  /**
   An order that is not listed in strictly ascending name order can never be
   delivered: the exit compares it, as listed, with the sorted plate names.
   */
  lemma UnsortedOrderNeverMatches(s: Station, i: Item, orders: seq<Order>, order: Order)
    requires s.kind.Exit? && !StrictlySorted(order)
    ensures !Drop(s, i, [order]).accepted
    ensures order in orders ==> order in Drop(s, i, orders).orders
  {
  }

  /** "choppedLettuce" sorts before "choppedTomato" ('L' < 'T' after the shared
      prefix "chopped"). */
  lemma ChoppedLettuceFirst()
    ensures Less("choppedLettuce", "choppedTomato")
  {
  }

  /** The sorted names of a plate holding both chopped ingredients. */
  lemma SaladPlateNames(plate: Item)
    requires plate.CleanPlate? && plate.contents.Keys == {"choppedLettuce", "choppedTomato"}
    ensures PlateNames(plate) == ["choppedLettuce", "choppedTomato"]
  {
    var want: seq<string> := ["choppedLettuce", "choppedTomato"];
    ChoppedLettuceFirst();
    assert StrictlySorted(want);
    assert forall x :: x in PlateNames(plate) <==> x in want;
    SortedIsUnique(PlateNames(plate), want);
  }

  /** A plate meets the only pending order when that order lists its sorted
      names. */
  lemma SoleOrderDelivered(s: Station, plate: Item, order: Order)
    requires s.kind.Exit? && plate.CleanPlate? && PlateNames(plate) == order
    ensures Drop(s, plate, [order]) == Dropped(true, plate, s.(kind := Exit(s.kind.numDirty + 1)), [])
  {
  }

  /** A plate holding chopped lettuce and chopped tomato meets the order that
      lists exactly those two, in name order. */
  lemma SaladDelivers(s: Station, plate: Item, orders: seq<Order>)
    requires s.kind.Exit?
    requires plate.CleanPlate? && plate.contents.Keys == {"choppedLettuce", "choppedTomato"}
    requires orders == [["choppedLettuce", "choppedTomato"]]
    ensures var d := Drop(s, plate, orders);
      d.accepted && d.orders == [] && d.station.kind == Exit(s.kind.numDirty + 1)
  {
    SaladPlateNames(plate);
    SoleOrderDelivered(s, plate, orders[0]);
  }

  /** A plate holding chopped lettuce and chopped tomato is refused when the
      only order lists tomato first, though it names the same ingredients. */
  lemma ListingOrderMatters(s: Station, plate: Item)
    requires s.kind.Exit?
    requires plate.CleanPlate? && plate.contents.Keys == {"choppedLettuce", "choppedTomato"}
    ensures !Drop(s, plate, [["choppedTomato", "choppedLettuce"]]).accepted
    ensures Drop(s, plate, [["choppedLettuce", "choppedTomato"]]).accepted
  {
    SaladPlateNames(plate);
  }
}
