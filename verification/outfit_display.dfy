/** Resolving an outfit suggestion's item ids against the closet, as the
    outfit cards (components/OutfitDisplay.tsx) and the calendar's planned
    looks (components/CalendarView.tsx) do: ids that no longer name a closet
    item are dropped silently. */
module Outfits {
  import opened Wrappers
  import opened Types
  import opened Seqs

  /** `closet.find(c => c.id === id)` */
  function FindItem(closet: seq<ClothingItem>, id: string): (r: Option<ClothingItem>)
    ensures r.None? <==> forall i :: 0 <= i < |closet| ==> closet[i].id != id
    ensures r.Some? ==> r.value in closet && r.value.id == id
    ensures r.Some? ==> exists i :: 0 <= i < |closet| && closet[i] == r.value && forall j :: 0 <= j < i ==> closet[j].id != id
  {
    Find(closet, (c: ClothingItem) => c.id == id)
  }

  /** Whether an id names some closet item. */
  function ResolvesIn(closet: seq<ClothingItem>): string -> bool
  {
    id => FindItem(closet, id).Some?
  }

  /** The ids of a sequence of items. */
  function IdsOf(items: seq<ClothingItem>): (ids: seq<string>)
    ensures |ids| == |items|
    ensures forall i :: 0 <= i < |items| ==> ids[i] == items[i].id
  {
    seq(|items|, i requires 0 <= i < |items| => items[i].id)
  }

  /** `itemIds.map(id => closet.find(c => c.id === id)).filter(Boolean)`,
      one id at a time: the first closet match of each id, in itemIds
      order, with unmatched ids dropped. */
  function ResolveItems(itemIds: seq<string>, closet: seq<ClothingItem>): (r: seq<ClothingItem>)
    ensures IdsOf(r) == Filter(itemIds, ResolvesIn(closet))
    ensures forall i :: 0 <= i < |r| ==> FindItem(closet, r[i].id) == Some(r[i])
    decreases |itemIds|
  {
    if |itemIds| == 0 then []
    else
      var rest := ResolveItems(itemIds[1..], closet);
      match FindItem(closet, itemIds[0])
      case None => rest
      case Some(c) =>
        IdsOfCons(c, rest);
        ResolvedCons(c, rest, closet);
        [c] + rest
  }

  lemma IdsOfCons(c: ClothingItem, rest: seq<ClothingItem>)
    ensures IdsOf([c] + rest) == [c.id] + IdsOf(rest)
  {
  }

  lemma ResolvedCons(c: ClothingItem, rest: seq<ClothingItem>, closet: seq<ClothingItem>)
    requires FindItem(closet, c.id) == Some(c)
    requires forall i :: 0 <= i < |rest| ==> FindItem(closet, rest[i].id) == Some(rest[i])
    ensures forall i :: 0 <= i < |[c] + rest| ==> FindItem(closet, ([c] + rest)[i].id) == Some(([c] + rest)[i])
  {
  }

  /** Consequences of the resolution contract: never more pieces than ids,
      every piece from the closet, nothing lost when every id resolves. */
  lemma ResolveItemsBounds(itemIds: seq<string>, closet: seq<ClothingItem>)
    ensures |ResolveItems(itemIds, closet)| <= |itemIds|
    ensures forall i :: 0 <= i < |ResolveItems(itemIds, closet)| ==> ResolveItems(itemIds, closet)[i] in closet
    ensures (forall i :: 0 <= i < |itemIds| ==> ResolvesIn(closet)(itemIds[i])) ==>
      IdsOf(ResolveItems(itemIds, closet)) == itemIds
  {
    var r := ResolveItems(itemIds, closet);
    assert |IdsOf(r)| == |r|;
    forall i | 0 <= i < |r| ensures r[i] in closet {
      assert FindItem(closet, r[i].id) == Some(r[i]);
    }
    if forall i :: 0 <= i < |itemIds| ==> ResolvesIn(closet)(itemIds[i]) {
      FilterKeepsAll(itemIds, ResolvesIn(closet));
    }
  }

  /** The "No items available" placeholder shows exactly when no id resolves. */
  function ShowsPlaceholder(outfit: OutfitSuggestion, closet: seq<ClothingItem>): (r: bool)
    ensures r <==> forall i :: 0 <= i < |outfit.itemIds| ==> FindItem(closet, outfit.itemIds[i]).None?
  {
    var pieces := ResolveItems(outfit.itemIds, closet);
    var ids := Filter(outfit.itemIds, ResolvesIn(closet));
    assert |IdsOf(pieces)| == |pieces| && IdsOf(pieces) == ids;
    assert |ids| == 0 ==> forall i :: 0 <= i < |outfit.itemIds| ==> !ResolvesIn(closet)(outfit.itemIds[i]);
    assert |ids| > 0 ==> ids[0] in outfit.itemIds && ResolvesIn(closet)(ids[0]);
    |pieces| == 0
  }

  /** The calendar shows the first four pieces (`pieces.slice(0, 4)`). */
  function ShownPieces(pieces: seq<ClothingItem>): (r: seq<ClothingItem>)
    ensures |r| <= 4
    ensures r <= pieces
    ensures |pieces| <= 4 ==> r == pieces
  {
    if |pieces| <= 4 then pieces else pieces[..4]
  }

  /** The "+n" badge, shown only when more than four pieces resolve. */
  function OverflowBadge(pieces: seq<ClothingItem>): (r: Option<nat>)
    ensures r.Some? <==> |pieces| > 4
    ensures r.Some? ==> |ShownPieces(pieces)| + r.value == |pieces|
  {
    if |pieces| > 4 then Some(|pieces| - 4) else None
  }

  /** Items with the same id are the same item. */
  predicate IdsDetermineItems(closet: seq<ClothingItem>)
  {
    forall i, j :: 0 <= i < |closet| && 0 <= j < |closet| && closet[i].id == closet[j].id ==> closet[i] == closet[j]
  }

  function IdIsNot(id: string): ClothingItem -> bool
  {
    (c: ClothingItem) => c.id != id
  }

  /** `after` holds exactly the items of `before` whose id is not `removed`. */
  predicate RemovedFrom(before: seq<ClothingItem>, after: seq<ClothingItem>, removed: string)
  {
    && (forall i :: 0 <= i < |after| ==> after[i] in before && after[i].id != removed)
    && (forall i :: 0 <= i < |before| && before[i].id != removed ==> before[i] in after)
  }

  /** Removing one item from the closet removes exactly its pieces from a
      resolved outfit; the outfit itself (its id list) is not touched. */
  lemma {:induction false} ResolveAfterRemoval(itemIds: seq<string>, before: seq<ClothingItem>, after: seq<ClothingItem>, removed: string)
    requires IdsDetermineItems(before)
    requires RemovedFrom(before, after, removed)
    ensures ResolveItems(itemIds, after) == Filter(ResolveItems(itemIds, before), IdIsNot(removed))
    decreases |itemIds|
  {
    if |itemIds| > 0 {
      ResolveAfterRemoval(itemIds[1..], before, after, removed);
      var id := itemIds[0];
      var fb := FindItem(before, id);
      var fa := FindItem(after, id);
      if id == removed {
        assert fa.None?;
      } else if fb.Some? {
        assert fb.value in after;
        assert fa.Some? && fa.value in before;
        assert fa.value == fb.value;
      }
    }
  }
}
