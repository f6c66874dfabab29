/**
 * The vocabulary screen (src/scenes/VocabScene.ts): a grid of picture/slot pairs, one per target,
 * with slot positions handed to the slot indices the targets name. Slots no target positioned are
 * stacked below the grid. Answers are scored as in the sentence screen.
 */
module VocabScene {
  import opened Wrappers
  import opened LayoutTypes
  import opened SlotScreens
  import GridVocabLayout

  const Sentinel: real := -9999.0
  const VocabSnapRadius: real := 75.0
  const VocabSlotW: real := 140.0
  const VocabSlotH: real := 70.0

  /** A picture target: the image to show and the slot index its answer goes to. */
  datatype VocabTarget = VocabTarget(imageId: string, slotIndex: int)

  /** A slot spec before positioning: at the sentinel corner, slot-sized, without word or callbacks. */
  function Unpositioned(): (s: SlotSpec)
    ensures s.x == Sentinel && s.y == Sentinel && s.w == VocabSlotW && s.h == VocabSlotH
  {
    SlotSpec(Sentinel, Sentinel, VocabSlotW, VocabSlotH, None, NoCallbacks)
  }

  /** The spec a layout item's slot rectangle gives. */
  function FromItem(item: PictureSlotLayout): (s: SlotSpec)
    ensures s.x == item.slot.x && s.y == item.slot.y && s.w == item.slot.w && s.h == item.slot.h
    ensures s.initialWord == None && s.callbacks == NoCallbacks
  {
    SlotSpec(item.slot.x, item.slot.y, item.slot.w, item.slot.h, None, NoCallbacks)
  }

  /**
   * Among the first n targets that have a layout item, the last one naming slot s.
   * None when no such target exists.
   */
  function LastTarget(targets: seq<VocabTarget>, nItems: nat, s: int, n: nat): (t: Option<nat>)
    requires n <= |targets|
    ensures t.Some? ==> t.value < n && t.value < nItems && targets[t.value].slotIndex == s
    ensures t.Some? ==> forall j :: t.value < j < n && j < nItems ==> targets[j].slotIndex != s
    ensures t.None? ==> forall j :: 0 <= j < n && j < nItems ==> targets[j].slotIndex != s
  {
    if n == 0 then None
    else if n - 1 < nItems && targets[n - 1].slotIndex == s then Some(n - 1)
    else LastTarget(targets, nItems, s, n - 1)
  }

  /** Slot s's spec after the first n targets: the slot rectangle of the last target naming it, else unpositioned. */
  function AssignedUpTo(targets: seq<VocabTarget>, items: seq<PictureSlotLayout>, s: int, n: nat): SlotSpec
    requires n <= |targets|
  {
    match LastTarget(targets, |items|, s, n)
    case Some(i) => FromItem(items[i])
    case None => Unpositioned()
  }

  /**
   * The target loop of `create`: slotCount unpositioned specs, then each target with a layout item
   * and an in-range slot index writes its item's slot rectangle over that index's spec.
   */
  method AssignSlots(slotCount: nat, targets: seq<VocabTarget>, items: seq<PictureSlotLayout>)
    returns (specs: seq<SlotSpec>)
    ensures |specs| == slotCount
    ensures forall s :: 0 <= s < slotCount ==> specs[s] == AssignedUpTo(targets, items, s, |targets|)
  {
    specs := seq(slotCount, _ => Unpositioned());
    for i := 0 to |targets|
      invariant |specs| == slotCount
      invariant forall s :: 0 <= s < slotCount ==> specs[s] == AssignedUpTo(targets, items, s, i)
    {
      if i < |items| {
        var t := targets[i];
        if 0 <= t.slotIndex < |specs| {
          specs := specs[t.slotIndex := FromItem(items[i])];
        }
      }
    }
  }

  /** Where the fallback loop puts an unpositioned slot: centred across the screen, stacked below the grid. */
  function FallbackSpot(spec: SlotSpec, i: nat, width: real, topArea: Rect): (r: SlotSpec)
    ensures r.x == width / 2.0 && r.y == topArea.y + topArea.h + 60.0 + i as real * (VocabSlotH + 10.0)
    ensures r.(x := spec.x, y := spec.y) == spec
  {
    spec.(x := width / 2.0, y := topArea.y + topArea.h + 60.0 + i as real * (VocabSlotH + 10.0))
  }

  /** The fallback loop of `create`: every spec still at the sentinel x is moved to its fallback spot. */
  method PlaceUnpositioned(specs: seq<SlotSpec>, width: real, topArea: Rect) returns (placed: seq<SlotSpec>)
    ensures |placed| == |specs|
    ensures forall i :: 0 <= i < |specs| && specs[i].x == Sentinel ==> placed[i] == FallbackSpot(specs[i], i, width, topArea)
    ensures forall i :: 0 <= i < |specs| && specs[i].x != Sentinel ==> placed[i] == specs[i]
  {
    placed := specs;
    for i := 0 to |specs|
      invariant |placed| == |specs|
      invariant forall j :: 0 <= j < i && specs[j].x == Sentinel ==> placed[j] == FallbackSpot(specs[j], j, width, topArea)
      invariant forall j :: 0 <= j < |specs| && (j >= i || specs[j].x != Sentinel) ==> placed[j] == specs[j]
    {
      if placed[i].x == Sentinel {
        placed := placed[i := FallbackSpot(placed[i], i, width, topArea)];
      }
    }
  }

  /** The grid request of `create`: one cell per target, 3 columns, slots below 150 x 140 pictures. */
  function GridRequest(targetCount: nat, width: real, height: real): (p: GridVocabLayout.GridParams)
    ensures p.Columns() == 3 && p.Placement() == Below && p.count == targetCount
    ensures p.Gap() == 14.0 && p.GapX() == 30.0 && p.GapY() == 40.0
    ensures p.slotW == VocabSlotW && p.slotH == VocabSlotH
  {
    GridVocabLayout.GridParams(
      targetCount, TopArea(width, height), 150.0, 140.0, VocabSlotW, VocabSlotH,
      Some(3), Some(30.0), Some(40.0), Some(Below), Some(14.0))
  }

  function TopArea(width: real, height: real): Rect {
    Rect(20.0, 130.0, width - 20.0, (height * 0.50).Floor as real)
  }

  /**
   * The slot part of `create`: lay the targets out, hand each in-range slot index its target's slot
   * rectangle (the last target wins), stack the rest below the grid, and build the slots.
   */
  method BuildVocabSlots(screen: SlotScreen, slotCount: nat, targets: seq<VocabTarget>, width: real, height: real)
    requires screen.Valid() && forall k :: 0 <= k < |screen.cards| ==> screen.cards[k].slotIndex.None?
    modifies screen
    ensures screen.Valid() && screen.Model().Symmetric()
    ensures |screen.slots| == slotCount
    ensures forall s :: 0 <= s < slotCount ==> screen.slots[s].occupant.None?
    ensures forall s :: 0 <= s < slotCount && LastTarget(targets, |targets|, s, |targets|).Some? ==>
      var sp := FromItem(GridVocabLayout.ItemAt(GridRequest(|targets|, width, height), LastTarget(targets, |targets|, s, |targets|).value));
      sp.w == VocabSlotW && sp.h == VocabSlotH &&
      screen.slots[s].spec == (if sp.x == Sentinel then FallbackSpot(sp, s, width, TopArea(width, height)) else sp)
    ensures forall s :: 0 <= s < slotCount && LastTarget(targets, |targets|, s, |targets|).None? ==>
      screen.slots[s].spec == FallbackSpot(Unpositioned(), s, width, TopArea(width, height))
  {
    var layout := GridVocabLayout.Generate(GridRequest(|targets|, width, height));
    forall i: nat | i < |layout.items|
      ensures layout.items[i].slot.w == VocabSlotW && layout.items[i].slot.h == VocabSlotH
    {
      GridVocabLayout.ItemSizes(GridRequest(|targets|, width, height), i);
    }
    var specs := AssignSlots(slotCount, targets, layout.items);
    specs := PlaceUnpositioned(specs, width, TopArea(width, height));
    screen.BuildSlots(specs);
  }

  /** The removal line: 70% of the screen height, rounded down. */
  function VocabRemovalThreshold(height: real): (t: real)
    ensures t <= height * 0.70 < t + 1.0
  {
    (height * 0.70).Floor as real
  }

  /** The screen set-up of `create`: snap radius 75 and the removal line at 70% of the height. */
  method ConfigureVocabScreen(screen: SlotScreen, height: real)
    modifies screen
    ensures screen.snapRadius == VocabSnapRadius
    ensures screen.bottomAreaThresholdY == Some(VocabRemovalThreshold(height))
    ensures screen.slots == old(screen.slots) && screen.cards == old(screen.cards)
  {
    screen.Configure(Some(VocabSnapRadius), Some(VocabRemovalThreshold(height)));
  }
}
