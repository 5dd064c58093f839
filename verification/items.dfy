/**
 The six kinds of item of items.go and their capabilities: combining onto a
 clean plate, cutting, washing, and the name every other part of the game
 matches on. The Go interface methods become member functions of one closed
 datatype; the embedded `baseItem` defaults are the fall-through cases.
 */
module Items {

  import opened Maybe

  /** A clean plate keeps what was combined onto it in a map keyed by name. */
  datatype Item =
    | Tomato
    | ChoppedTomato
    | Lettuce
    | ChoppedLettuce
    | DirtyPlate
    | CleanPlate(contents: map<string, Item>)
  {
    function Name(): string
    {
      match this
      case Tomato => "tomato"
      case ChoppedTomato => "choppedTomato"
      case Lettuce => "lettuce"
      case ChoppedLettuce => "choppedLettuce"
      case DirtyPlate => "dirtyPlate"
      case CleanPlate(_) => "cleanPlate"
    }

    /** Whether the item may be put onto a clean plate. */
    predicate CanCombine()
    {
      this == ChoppedTomato || this == ChoppedLettuce
    }

    predicate CanCut()
    {
      this == Tomato || this == Lettuce
    }

    predicate CanWash()
    {
      this == DirtyPlate
    }
  }

  /** Room on a clean plate. */
  const PlateCapacity := 3

  /** The result of `combine`: whether it accepted, and the receiver afterwards
      (Go changes the plate in place). */
  datatype Combined = Combined(ok: bool, item: Item)

  /**
   The plate invariant: at most three entries, each stored under its own name,
   and each one an item that may go on a plate.
   */
  ghost predicate ValidContents(contents: map<string, Item>)
  {
    && |contents| <= PlateCapacity
    && forall k :: k in contents ==> contents[k].Name() == k && contents[k].CanCombine()
  }

  ghost predicate ValidItem(i: Item)
  {
    i.CleanPlate? ==> ValidContents(i.contents)
  }

  /**
   `receiver.combine(other)`: only a clean plate accepts, and only an item that
   may go on a plate, while the plate has room and no entry of that name.
   On success exactly one entry, `other` under its own name, is added; on
   failure the receiver is returned as it was.
   */
  function Combine(receiver: Item, other: Item): (r: Combined)
    ensures r.ok <==>
      && receiver.CleanPlate?
      && other.CanCombine()
      && |receiver.contents| < PlateCapacity
      && other.Name() !in receiver.contents
    ensures !r.ok ==> r.item == receiver
    ensures r.ok ==>
      && r.item.CleanPlate?
      && r.item.contents.Keys == receiver.contents.Keys + {other.Name()}
      && |r.item.contents| == |receiver.contents| + 1
      && r.item.contents[other.Name()] == other
      && forall k :: k in receiver.contents ==> r.item.contents[k] == receiver.contents[k]
  {
    match receiver
    case CleanPlate(contents) =>
      if !other.CanCombine() then Combined(false, receiver)
      else if |contents| >= PlateCapacity then Combined(false, receiver)
      else if other.Name() in contents then Combined(false, receiver)
      else Combined(true, CleanPlate(contents[other.Name() := other]))
    case _ => Combined(false, receiver)
  }

  /** `combine` keeps the plate invariant. */
  lemma CombinePreservesValid(receiver: Item, other: Item)
    requires ValidItem(receiver)
    ensures ValidItem(Combine(receiver, other).item)
  {
  }

  /**
   The capability table: only the two chopped ingredients go on a plate (so a
   plate never goes on a plate), only the raw ingredients can be cut, only a
   dirty plate can be washed, and no item has two of these capabilities.
   */
  lemma Capabilities(i: Item)
    ensures i.CanCombine() <==> i.Name() in {"choppedLettuce", "choppedTomato"}
    ensures i.CanCut() <==> i.Name() in {"lettuce", "tomato"}
    ensures i.CanWash() <==> i.Name() == "dirtyPlate"
    ensures !(i.CanCombine() && i.CanCut()) && !(i.CanCombine() && i.CanWash()) && !(i.CanCut() && i.CanWash())
    ensures i.CleanPlate? ==> !i.CanCombine() && !i.CanCut() && !i.CanWash()
  {
  }

  /** What a valid plate can hold: the keys are chopped-ingredient names, so
      there are at most two entries and the capacity of three never binds. */
  lemma {:induction false} ValidContentsAtMostTwo(contents: map<string, Item>)
    requires ValidContents(contents)
    ensures contents.Keys <= {"choppedLettuce", "choppedTomato"}
    ensures |contents| <= 2
    ensures forall k :: k in contents ==> !contents[k].CleanPlate? && !contents[k].DirtyPlate?
  {
    forall k | k in contents
      ensures k in {"choppedLettuce", "choppedTomato"}
    {
      Capabilities(contents[k]);
    }
    SubsetCardinality(contents.Keys, {"choppedLettuce", "choppedTomato"});
    assert |contents| == |contents.Keys|;
  }

  lemma SubsetCardinality<T>(a: set<T>, b: set<T>)
    requires a <= b
    ensures |a| <= |b|
  {
    if a != {} {
      var x :| x in a;
      SubsetCardinality(a - {x}, b - {x});
    }
  }

  /** Names tell the variants apart: two items share a name exactly when they
      are the same kind of item. */
  lemma NamesDistinct(a: Item, b: Item)
    ensures a.Name() == b.Name() <==> (a.CleanPlate? && b.CleanPlate?) || (!a.CleanPlate? && a == b)
  {
  }

  /** `completeCut`: defined (non-nil) exactly for a cuttable item, and the
      product is a chopped ingredient that can no longer be cut. */
  function CompleteCut(i: Item): (r: Option<Item>)
    ensures r.Some? <==> i.CanCut()
    ensures r.Some? ==> r.value.CanCombine() && !r.value.CanCut()
    ensures r == Some(ChoppedLettuce) <==> i == Lettuce
    ensures r == Some(ChoppedTomato) <==> i == Tomato
  {
    match i
    case Lettuce => Some(ChoppedLettuce)
    case Tomato => Some(ChoppedTomato)
    case _ => None
  }

  /** `completeWash`: defined exactly for a dirty plate, which comes back as a
      new, empty clean plate. */
  function CompleteWash(i: Item): (r: Option<Item>)
    ensures r.Some? <==> i.CanWash()
    ensures r.Some? ==> r.value.CleanPlate? && r.value.contents == map[] && ValidItem(r.value)
  {
    if i.DirtyPlate? then Some(NewCleanPlate([])) else None
  }

  /** Combining `items` one after another onto `plate`; None where Go's
      `newCleanPlate` would panic. */
  function CombineAll(plate: Item, items: seq<Item>): (r: Option<Item>)
    ensures r.Some? && |items| > 0 ==> plate.CleanPlate?
    ensures r.Some? && plate.CleanPlate? ==>
      && r.value.CleanPlate?
      && plate.contents.Keys <= r.value.contents.Keys
      && forall k :: k in plate.contents ==> r.value.contents[k] == plate.contents[k]
    decreases |items|
  {
    if |items| == 0 then Some(plate)
    else
      var c := Combine(plate, items[0]);
      if !c.ok then None else CombineAll(c.item, items[1..])
  }

  function NamesOf(items: seq<Item>): set<string>
  {
    set i | i in items :: i.Name()
  }

  lemma NamesOfCons(items: seq<Item>)
    requires |items| > 0
    ensures NamesOf(items) == {items[0].Name()} + NamesOf(items[1..])
  {
  }

  ghost predicate DistinctNames(items: seq<Item>)
  {
    forall i, j :: 0 <= i < j < |items| ==> items[i].Name() != items[j].Name()
  }

  /**
   Exactly when `newCleanPlate(items)` does not panic: every item may go on a
   plate, their names are pairwise distinct, and there are at most three.
   */
  lemma CanBuildPlate(items: seq<Item>)
    ensures CombineAll(CleanPlate(map[]), items).Some? <==>
      && |items| <= PlateCapacity
      && (forall i :: 0 <= i < |items| ==> items[i].CanCombine())
      && DistinctNames(items)
  {
    CombineAllSucceeds(map[], items);
  }

  /** Whether `items` can all go, in turn, onto a plate holding `contents`. */
  ghost predicate FitsOn(contents: map<string, Item>, items: seq<Item>)
  {
    && |contents| + |items| <= PlateCapacity
    && (forall i :: 0 <= i < |items| ==> items[i].CanCombine())
    && DistinctNames(items)
    && (forall i :: 0 <= i < |items| ==> items[i].Name() !in contents)
  }

  lemma {:induction false} CombineAllSucceeds(contents: map<string, Item>, items: seq<Item>)
    requires |contents| <= PlateCapacity
    ensures CombineAll(CleanPlate(contents), items).Some? <==> FitsOn(contents, items)
    decreases |items|
  {
    if |items| > 0 {
      var c := Combine(CleanPlate(contents), items[0]);
      if c.ok {
        CombineAllSucceeds(c.item.contents, items[1..]);
        FitsOnStep(contents, c.item.contents, items);
      }
    }
  }

  /** Placing the first item moves it from the list onto the plate without
      changing whether the whole list fits. */
  lemma FitsOnStep(contents: map<string, Item>, after: map<string, Item>, items: seq<Item>)
    requires |items| > 0 && items[0].CanCombine() && items[0].Name() !in contents
    requires after.Keys == contents.Keys + {items[0].Name()} && |after| == |contents| + 1
    ensures FitsOn(contents, items) <==> FitsOn(after, items[1..])
  {
    var rest := items[1..];
    assert forall i :: 1 <= i < |items| ==> items[i] == rest[i - 1];
    assert DistinctNames(items) <==>
      DistinctNames(rest) && forall i :: 0 <= i < |rest| ==> rest[i].Name() != items[0].Name();
  }

  /** The result of `CombineAll` when it succeeds: the plate gains one entry
      per item, each under its own name, and the invariant holds throughout. */
  lemma {:induction false} CombineAllContents(plate: Item, items: seq<Item>)
    requires ValidItem(plate) && plate.CleanPlate?
    requires CombineAll(plate, items).Some?
    ensures CombineAll(plate, items).value.CleanPlate?
    ensures ValidItem(CombineAll(plate, items).value)
    ensures CombineAll(plate, items).value.contents.Keys == plate.contents.Keys + NamesOf(items)
    ensures |CombineAll(plate, items).value.contents| == |plate.contents| + |items|
    decreases |items|
  {
    if |items| > 0 {
      var c := Combine(plate, items[0]);
      var rest := items[1..];
      CombinePreservesValid(plate, items[0]);
      CombineAllContents(c.item, rest);
      NamesOfCons(items);
    }
  }

  /**
   `newCleanPlate(items)`. Go panics unless every item combines onto the new
   plate in turn, so that is demanded of the caller. The plate holds exactly
   the items' names and satisfies the plate invariant.
   */
  function NewCleanPlate(items: seq<Item>): (r: Item)
    requires CombineAll(CleanPlate(map[]), items).Some?
    ensures r.CleanPlate? && ValidItem(r)
    ensures r.contents.Keys == NamesOf(items)
    ensures |r.contents| == |items|
  {
    CombineAllContents(CleanPlate(map[]), items);
    CombineAll(CleanPlate(map[]), items).value
  }
}
