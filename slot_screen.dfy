/**
 * The slot board (src/ui/slots/SlotScreen.ts): an arena of slots, each holding an optional
 * card id, and the cards themselves, each holding an optional slot index. The drop handler
 * resolves a released card into one of: stay, restore, snap into an empty slot, reject, swap
 * or evict.
 *
 * Distances are compared by their squares: for non-negative reals the square root is monotone,
 * so `sqrt(d2) < sqrt(e2)` iff `d2 < e2`, and `sqrt(d2) > r` iff not (`r >= 0` and `d2 <= r * r`).
 */
module SlotScreens {
  import opened Wrappers
  import opened WordCards

  /** The callback pair a slot may carry; SentenceScene installs one per slot, keyed by the slot's flat index. */
  datatype SlotCallbacks = NoCallbacks | SentenceCallbacks(slotIndex: nat)

  /** Centre, size, optional initial word and callbacks of one slot. */
  datatype SlotSpec = SlotSpec(x: real, y: real, w: real, h: real, initialWord: Option<string>, callbacks: SlotCallbacks)

  datatype Slot = Slot(spec: SlotSpec, occupant: Option<nat>)

  const DefaultSnapRadius: real := 70.0

  /** Upper-cases an ASCII letter; every other character is left as it is. */
  function UpperChar(ch: char): (r: char)
    ensures 'a' <= ch <= 'z' ==> 'A' <= r <= 'Z' && r as int == ch as int - 32
    ensures !('a' <= ch <= 'z') ==> r == ch
  {
    if 'a' <= ch <= 'z' then (ch as int - 32) as char else ch
  }

  /** The word with its first character upper-cased (empty stays empty). */
  function Capitalized(s: string): (r: string)
    ensures |r| == |s|
    ensures s != [] ==> r[0] == UpperChar(s[0]) && r[1..] == s[1..]
  {
    if s == [] then [] else [UpperChar(s[0])] + s[1..]
  }

  /** What the slot's onPlace callback does to the card placed in it. */
  function AfterOnPlace(cb: SlotCallbacks, v: CardView): (r: CardView)
    ensures cb == SentenceCallbacks(0) ==> r == Displaying(v, Capitalized(v.word))
    ensures cb != SentenceCallbacks(0) ==> r == v
  {
    if cb.SentenceCallbacks? && cb.slotIndex == 0 then Displaying(v, Capitalized(v.word)) else v
  }

  /** What the slot's onRemove callback does to the card removed from it. */
  function AfterOnRemove(cb: SlotCallbacks, v: CardView): (r: CardView)
    ensures cb == SentenceCallbacks(0) ==> r == Reset(v)
    ensures cb != SentenceCallbacks(0) ==> r == v
  {
    if cb.SentenceCallbacks? && cb.slotIndex == 0 then Reset(v) else v
  }

  /** A card after `placeCardInSlot` put it into a slot with this spec at index i. */
  function Placed(v: CardView, spec: SlotSpec, i: nat): (r: CardView)
    ensures r.slotIndex == Some(i)
    ensures r.CenterX() == spec.x && r.CenterY() == spec.y
    ensures r.word == v.word && r.draggable == v.draggable && r.homeX == v.homeX && r.homeY == v.homeY
  {
    AfterOnPlace(spec.callbacks, SnappedTo(v.(slotIndex := Some(i)), spec.x, spec.y))
  }

  /** A card after `removeFromSlot` took it out of a slot with these callbacks. */
  function Detached(v: CardView, cb: SlotCallbacks): (r: CardView)
    ensures r.slotIndex == None && r.displayWord == v.word
    ensures r.x == v.x && r.y == v.y && r.draggable == v.draggable
  {
    Reset(AfterOnRemove(cb, v).(slotIndex := None))
  }

  /** Placing the same card in the same slot twice gives the same card as placing it once. */
  lemma PlacedIdempotent(v: CardView, spec: SlotSpec, i: nat)
    ensures Placed(Placed(v, spec, i), spec, i) == Placed(v, spec, i)
  {
  }

  function Dist2(px: real, py: real, qx: real, qy: real): (d: real)
    ensures d >= 0.0
  {
    (px - qx) * (px - qx) + (py - qy) * (py - qy)
  }

  /** A distance whose square is d2 is at most r. */
  predicate WithinRadius(d2: real, r: real) {
    r >= 0.0 && d2 <= r * r
  }

  function SlotDist2(slots: seq<Slot>, i: nat, cx: real, cy: real): real
    requires i < |slots|
  {
    Dist2(cx, cy, slots[i].spec.x, slots[i].spec.y)
  }

  /**
   * The nearest-slot scan over the first n slots: the index of the first slot at minimum
   * distance and its squared distance, or (-1, None) when there is no slot (distance +infinity).
   */
  function NearestUpTo(slots: seq<Slot>, cx: real, cy: real, n: nat): (res: (int, Option<real>))
    requires n <= |slots|
    ensures n == 0 <==> res.0 == -1
    ensures n == 0 ==> res.1 == None
    ensures n > 0 ==> 0 <= res.0 < n && res.1 == Some(SlotDist2(slots, res.0, cx, cy))
    ensures n > 0 ==> forall j :: 0 <= j < n ==> SlotDist2(slots, res.0, cx, cy) <= SlotDist2(slots, j, cx, cy)
    ensures n > 0 ==> forall j :: 0 <= j < res.0 ==> SlotDist2(slots, res.0, cx, cy) < SlotDist2(slots, j, cx, cy)
  {
    if n == 0 then (-1, None)
    else
      var prev := NearestUpTo(slots, cx, cy, n - 1);
      var dn := SlotDist2(slots, n - 1, cx, cy);
      if prev.1.None? || dn < prev.1.value then (n - 1, Some(dn)) else prev
  }

  /** The nearest-slot search of the drop handler: scans every slot, occupied or not, keeping the first minimum. */
  method FindNearest(slots: seq<Slot>, cx: real, cy: real) returns (bestIndex: int, bestDist2: Option<real>)
    ensures (bestIndex, bestDist2) == NearestUpTo(slots, cx, cy, |slots|)
    ensures |slots| == 0 <==> bestIndex == -1
    ensures bestIndex >= 0 ==> bestIndex < |slots| && bestDist2 == Some(SlotDist2(slots, bestIndex, cx, cy))
    ensures bestIndex >= 0 ==> forall j :: 0 <= j < |slots| ==> SlotDist2(slots, bestIndex, cx, cy) <= SlotDist2(slots, j, cx, cy)
  {
    bestIndex, bestDist2 := -1, None;
    var i := 0;
    while i < |slots|
      invariant 0 <= i <= |slots|
      invariant (bestIndex, bestDist2) == NearestUpTo(slots, cx, cy, i)
    {
      var d := SlotDist2(slots, i, cx, cy);
      if bestDist2.None? || d < bestDist2.value {
        bestIndex, bestDist2 := i, Some(d);
      }
      i := i + 1;
    }
  }

  /** Slot i holds card k exactly when card k records slot i. */
  predicate OccupancySymmetric(occ: seq<Option<nat>>, cardSlots: seq<Option<nat>>) {
    forall i, k :: 0 <= i < |occ| && 0 <= k < |cardSlots| ==>
      (occ[i] == Some(k) <==> cardSlots[k] == Some(i))
  }

  /** Detaching a slotted card from its slot keeps the relation symmetric. */
  lemma DetachKeepsSymmetric(occ: seq<Option<nat>>, cardSlots: seq<Option<nat>>, c: nat)
    requires OccupancySymmetric(occ, cardSlots)
    requires c < |cardSlots| && cardSlots[c].Some? && cardSlots[c].value < |occ|
    ensures occ[cardSlots[c].value] == Some(c)
    ensures OccupancySymmetric(occ[cardSlots[c].value := None], cardSlots[c := None])
  {
  }

  /** Putting an unslotted card into an empty slot keeps the relation symmetric. */
  lemma FillKeepsSymmetric(occ: seq<Option<nat>>, cardSlots: seq<Option<nat>>, b: nat, c: nat)
    requires OccupancySymmetric(occ, cardSlots)
    requires b < |occ| && occ[b].None? && c < |cardSlots| && cardSlots[c].None?
    ensures OccupancySymmetric(occ[b := Some(c)], cardSlots[c := Some(b)])
  {
  }

  /** An unslotted card taking slot b from card o, which moves into the empty slot q, keeps the relation symmetric. */
  lemma SwapKeepsSymmetric(occ: seq<Option<nat>>, cardSlots: seq<Option<nat>>, b: nat, c: nat, o: nat, q: nat)
    requires OccupancySymmetric(occ, cardSlots)
    requires b < |occ| && q < |occ| && c < |cardSlots| && o < |cardSlots|
    requires occ[b] == Some(o) && occ[q].None? && cardSlots[c].None?
    ensures b != q && c != o
    ensures OccupancySymmetric(occ[b := Some(c)][q := Some(o)], cardSlots[c := Some(b)][o := Some(q)])
  {
  }

  /** An unslotted card taking slot b from card o, which loses its slot, keeps the relation symmetric. */
  lemma EvictKeepsSymmetric(occ: seq<Option<nat>>, cardSlots: seq<Option<nat>>, b: nat, c: nat, o: nat)
    requires OccupancySymmetric(occ, cardSlots)
    requires b < |occ| && c < |cardSlots| && o < |cardSlots|
    requires occ[b] == Some(o) && cardSlots[c].None?
    ensures c != o
    ensures OccupancySymmetric(occ[b := Some(c)], cardSlots[c := Some(b)][o := None])
  {
  }

  /** Overwriting q, writing b != q, then writing q again is the same as writing q last-value first. */
  lemma UpdateReorder<T>(s: seq<T>, q: nat, b: nat, first: T, last: T, x: T)
    requires q < |s| && b < |s| && q != b
    ensures s[q := first][b := x][q := last] == s[q := last][b := x]
  {
  }

  /** Number of occupied slots in a list of occupants. */
  function CountOccupied(occ: seq<Option<nat>>): (n: nat)
    ensures n <= |occ|
  {
    if occ == [] then 0 else (if occ[0].Some? then 1 else 0) + CountOccupied(occ[1..])
  }

  /** Replacing an occupant by another occupant (or an empty slot by an empty one) keeps the count. */
  lemma {:induction false} CountOccupiedUpdate(occ: seq<Option<nat>>, i: nat, v: Option<nat>)
    requires i < |occ| && occ[i].Some? == v.Some?
    ensures CountOccupied(occ[i := v]) == CountOccupied(occ)
  {
    if i > 0 {
      assert occ[i := v][1..] == occ[1..][i - 1 := v];
      CountOccupiedUpdate(occ[1..], i - 1, v);
    } else {
      assert occ[i := v][1..] == occ[1..];
    }
  }

  /** Filling an empty slot adds one to the count. */
  lemma {:induction false} CountOccupiedFill(occ: seq<Option<nat>>, i: nat, v: nat)
    requires i < |occ| && occ[i].None?
    ensures CountOccupied(occ[i := Some(v)]) == CountOccupied(occ) + 1
  {
    if i > 0 {
      assert occ[i := Some(v)][1..] == occ[1..][i - 1 := Some(v)];
      CountOccupiedFill(occ[1..], i - 1, v);
    } else {
      assert occ[i := Some(v)][1..] == occ[1..];
    }
  }

  /** Moving an occupant from slot q to an empty slot b keeps the count. */
  lemma CountMove(occ: seq<Option<nat>>, q: nat, b: nat, v: nat)
    requires q < |occ| && b < |occ| && q != b && occ[q].Some? && occ[b].None?
    ensures CountOccupied(occ[q := None][b := Some(v)]) == CountOccupied(occ)
  {
    CountOccupiedFill(occ[q := None], q, occ[q].value);
    assert occ[q := None][q := occ[q]] == occ;
    CountOccupiedFill(occ[q := None], b, v);
  }

  /** Largest centre y among the specs, starting from 0. */
  function MaxSpecY(specs: seq<SlotSpec>): (m: real)
    ensures m >= 0.0
    ensures forall i :: 0 <= i < |specs| ==> specs[i].y <= m
    ensures m == 0.0 || exists i :: 0 <= i < |specs| && specs[i].y == m
  {
    if specs == [] then 0.0
    else
      var rest := MaxSpecY(specs[..|specs| - 1]);
      var last := specs[|specs| - 1].y;
      if last > rest then last else rest
  }

  /** The nearest-slot scan only looks at slot centres, never at occupants. */
  lemma {:induction false} NearestIgnoresOccupants(s1: seq<Slot>, s2: seq<Slot>, cx: real, cy: real, n: nat)
    requires n <= |s1| == |s2|
    requires forall i :: 0 <= i < |s1| ==> s1[i].spec == s2[i].spec
    ensures NearestUpTo(s1, cx, cy, n) == NearestUpTo(s2, cx, cy, n)
  {
    if n > 0 {
      NearestIgnoresOccupants(s1, s2, cx, cy, n - 1);
    }
  }

  /** The occupants once slot p (if any) has been emptied. */
  function Vacated(occ: seq<Option<nat>>, p: Option<nat>): seq<Option<nat>>
    requires p.Some? ==> p.value < |occ|
  {
    if p.Some? then occ[p.value := None] else occ
  }

  /** What a drop resolves to, decided from the state before the drop. */
  datatype DropOutcome =
    | OutOfReach                       // no slot within the snap radius
    | IntoEmpty(target: nat)           // nearest slot is empty (or is the card's own)
    | Rejected(other: nat)             // nearest slot holds a locked card
    | Swapped(target: nat, other: nat) // nearest slot holds a draggable card

  /**
   * The board as a value: the slots (spec and occupant card id) and every card's state by card id.
   * The class below holds the same state in fields and card objects.
   */
  datatype Board = Board(slots: seq<Slot>, cards: seq<CardView>)
  {
    /** Every card id and slot index on the board is in range. */
    predicate Valid() {
      (forall i :: 0 <= i < |slots| && slots[i].occupant.Some? ==> slots[i].occupant.value < |cards|) &&
      (forall k :: 0 <= k < |cards| && cards[k].slotIndex.Some? ==> cards[k].slotIndex.value < |slots|)
    }

    function Occupants(): (occ: seq<Option<nat>>)
      ensures |occ| == |slots| && forall i :: 0 <= i < |slots| ==> occ[i] == slots[i].occupant
    {
      seq(|slots|, i requires 0 <= i < |slots| => slots[i].occupant)
    }

    function CardSlots(): (s: seq<Option<nat>>)
      ensures |s| == |cards| && forall k :: 0 <= k < |cards| ==> s[k] == cards[k].slotIndex
    {
      seq(|cards|, k requires 0 <= k < |cards| => cards[k].slotIndex)
    }

    /** Occupancy symmetry: slot i holds card k exactly when card k records slot i. */
    predicate Symmetric() {
      OccupancySymmetric(Occupants(), CardSlots())
    }

    /** Same number of slots and cards, and the same slot specs. */
    predicate SameLayout(other: Board) {
      |other.slots| == |slots| && |other.cards| == |cards| &&
      forall i :: 0 <= i < |slots| ==> other.slots[i].spec == slots[i].spec
    }

    /** The card id's state once it is out of its slot p (if any), with that slot's onRemove applied. */
    function DetachedCard(c: nat): CardView
      requires Valid() && c < |cards|
    {
      var p := cards[c].slotIndex;
      if p.Some? then Detached(cards[c], slots[p.value].spec.callbacks) else cards[c]
    }
  }

  /** Symmetry read at one slot and one card. */
  lemma OccupancyAt(bd: Board, i: nat, k: nat)
    requires bd.Valid() && bd.Symmetric() && i < |bd.slots| && k < |bd.cards|
    ensures bd.slots[i].occupant == Some(k) <==> bd.cards[k].slotIndex == Some(i)
  {
    assert bd.Occupants()[i] == bd.slots[i].occupant && bd.CardSlots()[k] == bd.cards[k].slotIndex;
  }

  /** Under symmetry no card sits in two slots. */
  lemma SymmetricUnique(bd: Board)
    requires bd.Valid() && bd.Symmetric()
    ensures forall i, j :: 0 <= i < j < |bd.slots| && bd.slots[i].occupant.Some? ==> bd.slots[j].occupant != bd.slots[i].occupant
  {
    forall i, j | 0 <= i < j < |bd.slots| && bd.slots[i].occupant.Some?
      ensures bd.slots[j].occupant != bd.slots[i].occupant
    {
      var k := bd.slots[i].occupant.value;
      assert bd.CardSlots()[k] == Some(i);
    }
  }

  /** `placeCardInSlot`: slot i records card c, and card c records slot i, glides to its centre and gets onPlace. */
  function PlaceIn(bd: Board, c: nat, i: nat): (r: Board)
    requires bd.Valid() && c < |bd.cards| && i < |bd.slots|
    ensures r.Valid() && bd.SameLayout(r)
    ensures r.Occupants() == bd.Occupants()[i := Some(c)] && r.CardSlots() == bd.CardSlots()[c := Some(i)]
    ensures r.cards[c].CenterX() == bd.slots[i].spec.x && r.cards[c].CenterY() == bd.slots[i].spec.y
  {
    Board(bd.slots[i := bd.slots[i].(occupant := Some(c))], bd.cards[c := Placed(bd.cards[c], bd.slots[i].spec, i)])
  }

  /** Repeating `placeCardInSlot` with the same card and slot leaves the board as one call left it. */
  lemma PlaceInIdempotent(bd: Board, c: nat, i: nat)
    requires bd.Valid() && c < |bd.cards| && i < |bd.slots|
    ensures PlaceIn(PlaceIn(bd, c, i), c, i) == PlaceIn(bd, c, i)
  {
    PlacedIdempotent(bd.cards[c], bd.slots[i].spec, i);
  }

  /**
   * `removeFromSlot`: an unslotted card is left alone; otherwise its slot is cleared only if it holds
   * this card, the slot's onRemove fires, and the card loses its index and shows its own word.
   */
  function RemovedFrom(bd: Board, c: nat): (r: Board)
    requires bd.Valid() && c < |bd.cards|
    ensures r.Valid() && bd.SameLayout(r)
    ensures r.CardSlots() == bd.CardSlots()[c := None]
    ensures r.cards == bd.cards[c := bd.DetachedCard(c)]
    ensures r.cards[c].CenterX() == bd.cards[c].CenterX() && r.cards[c].CenterY() == bd.cards[c].CenterY()
    ensures bd.Symmetric() ==> r.Symmetric() && r.Occupants() == Vacated(bd.Occupants(), bd.cards[c].slotIndex)
  {
    match bd.cards[c].slotIndex
    case None => bd
    case Some(i) =>
      var cleared := if bd.slots[i].occupant == Some(c) then bd.slots[i := bd.slots[i].(occupant := None)] else bd.slots;
      var r := Board(cleared, bd.cards[c := Detached(bd.cards[c], bd.slots[i].spec.callbacks)]);
      assert bd.Symmetric() ==> r.Occupants() == bd.Occupants()[i := None] by {
        if bd.Symmetric() {
          assert bd.Occupants()[i] == Some(c);
        }
      }
      assert bd.Symmetric() ==> r.Symmetric() by {
        if bd.Symmetric() {
          DetachKeepsSymmetric(bd.Occupants(), bd.CardSlots(), c);
        }
      }
      r
  }

  /** The evicted card of a swap: index cleared, display reset, glided home. */
  function EvictedHome(bd: Board, k: nat): (r: Board)
    requires bd.Valid() && k < |bd.cards|
    ensures r.Valid() && bd.SameLayout(r)
    ensures r.slots == bd.slots && r.CardSlots() == bd.CardSlots()[k := None]
    ensures |r.cards| == |bd.cards| && forall j :: 0 <= j < |bd.cards| && j != k ==> r.cards[j] == bd.cards[j]
    ensures r.cards[k].x == bd.cards[k].homeX && r.cards[k].y == bd.cards[k].homeY && r.cards[k].displayWord == bd.cards[k].word
  {
    Board(bd.slots, bd.cards[k := SentHome(bd.cards[k])])
  }

  /** A drop that does not land: the card goes back into the slot it came from, if any. */
  function PutBack(bd: Board, c: nat, p: Option<nat>): (r: Board)
    requires bd.Valid() && c < |bd.cards| && (p.Some? ==> p.value < |bd.slots|)
    ensures r.Valid() && bd.SameLayout(r)
    ensures p.None? ==> r == bd
    ensures p.Some? ==> r.Occupants() == bd.Occupants()[p.value := Some(c)] && r.CardSlots() == bd.CardSlots()[c := p]
    ensures p.Some? ==> r.cards[c].CenterX() == bd.slots[p.value].spec.x && r.cards[c].CenterY() == bd.slots[p.value].spec.y
  {
    if p.Some? then PlaceIn(bd, c, p.value) else bd
  }

  /**
   * The swap half of a drop: card c takes slot b, and the other card o moves into slot p when p is
   * given and empty by then, or is otherwise cleared and sent home.
   */
  function SwappedIn(d: Board, c: nat, b: nat, o: nat, p: Option<nat>): (r: Board)
    requires d.Valid() && c < |d.cards| && o < |d.cards| && b < |d.slots| && (p.Some? ==> p.value < |d.slots|)
    ensures r.Valid() && d.SameLayout(r)
  {
    var e := PlaceIn(d, c, b);
    if p.Some? && e.slots[p.value].occupant.None? then PlaceIn(e, o, p.value) else EvictedHome(e, o)
  }

  /**
   * What happens to card c once it has been detached from its previous slot p: find the nearest slot,
   * then put back, snap into an empty slot, reject (put back), or swap.
   */
  function Landed(d: Board, c: nat, p: Option<nat>, radius: real): (r: Board)
    requires d.Valid() && c < |d.cards| && (p.Some? ==> p.value < |d.slots|)
    ensures r.Valid() && d.SameLayout(r)
  {
    var nearest := NearestUpTo(d.slots, d.cards[c].CenterX(), d.cards[c].CenterY(), |d.slots|);
    if nearest.0 < 0 || !WithinRadius(nearest.1.value, radius) then PutBack(d, c, p)
    else LandedAt(d, c, nearest.0 as nat, p)
  }

  /** Card c dropped within reach of slot b: snap into it when empty, put back when its card is fixed, else swap. */
  function LandedAt(d: Board, c: nat, b: nat, p: Option<nat>): (r: Board)
    requires d.Valid() && c < |d.cards| && b < |d.slots| && (p.Some? ==> p.value < |d.slots|)
    ensures r.Valid() && d.SameLayout(r)
  {
    match d.slots[b].occupant
    case None => PlaceIn(d, c, b)
    case Some(o) => if !d.cards[o].draggable then PutBack(d, c, p) else SwappedIn(d, c, b, o, p)
  }

  /** `trySnapOrSwap`: detach card c from its previous slot (the same bookkeeping as `removeFromSlot`), then land it. */
  function Dropped(bd: Board, c: nat, radius: real): (r: Board)
    requires bd.Valid() && c < |bd.cards|
    ensures r.Valid() && bd.SameLayout(r)
  {
    Landed(RemovedFrom(bd, c), c, bd.cards[c].slotIndex, radius)
  }

  /** The outcome of dropping card c, read off the board before the drop. */
  function Decide(bd: Board, c: nat, radius: real): DropOutcome
    requires bd.Valid() && c < |bd.cards|
  {
    var nearest := NearestUpTo(bd.slots, bd.cards[c].CenterX(), bd.cards[c].CenterY(), |bd.slots|);
    if nearest.0 < 0 || !WithinRadius(nearest.1.value, radius) then OutOfReach
    else
      var b := nearest.0 as nat;
      var occ := bd.slots[b].occupant;
      if occ.None? || occ == Some(c) then IntoEmpty(b)
      else if !bd.cards[occ.value].draggable then Rejected(occ.value)
      else Swapped(b, occ.value)
  }

  /** Where the dropped card ends when the drop does not land: back in its old slot, or where it was let go. */
  function RestoredCard(bd: Board, c: nat): CardView
    requires bd.Valid() && c < |bd.cards|
  {
    var p := bd.cards[c].slotIndex;
    if p.Some? then Placed(bd.DetachedCard(c), bd.slots[p.value].spec, p.value) else bd.cards[c]
  }

  /** The facts every drop lemma starts from: the detached board is symmetric and has the same nearest slot. */
  lemma DetachFacts(bd: Board, c: nat)
    requires bd.Valid() && bd.Symmetric() && c < |bd.cards|
    ensures var d := RemovedFrom(bd, c);
      d.Symmetric() &&
      NearestUpTo(d.slots, d.cards[c].CenterX(), d.cards[c].CenterY(), |d.slots|) ==
      NearestUpTo(bd.slots, bd.cards[c].CenterX(), bd.cards[c].CenterY(), |bd.slots|)
    ensures bd.cards[c].slotIndex.Some? ==> bd.slots[bd.cards[c].slotIndex.value].occupant == Some(c)
  {
    var d := RemovedFrom(bd, c);
    NearestIgnoresOccupants(d.slots, bd.slots, bd.cards[c].CenterX(), bd.cards[c].CenterY(), |bd.slots|);
    if bd.cards[c].slotIndex.Some? {
      assert bd.CardSlots()[c] == bd.cards[c].slotIndex;
    }
  }

  /** A drop out of reach: only the dropped card changes, and it goes back to its slot (or stays where let go). */
  lemma DropOutOfReach(bd: Board, c: nat, radius: real)
    requires bd.Valid() && bd.Symmetric() && c < |bd.cards| && Decide(bd, c, radius) == OutOfReach
    ensures var r := Dropped(bd, c, radius);
      r.Symmetric() && r.Occupants() == bd.Occupants() && r.cards == bd.cards[c := RestoredCard(bd, c)]
  {
    PutBackLanding(bd, c, radius);
    PutBackResult(bd, c);
  }

  /** A drop onto a locked card: only the dropped card changes, and it goes back to its slot (or stays where let go). */
  lemma DropRejected(bd: Board, c: nat, radius: real, o: nat)
    requires bd.Valid() && bd.Symmetric() && c < |bd.cards| && Decide(bd, c, radius) == Rejected(o)
    ensures var r := Dropped(bd, c, radius);
      r.Symmetric() && r.Occupants() == bd.Occupants() && r.cards == bd.cards[c := RestoredCard(bd, c)]
  {
    PutBackLanding(bd, c, radius);
    PutBackResult(bd, c);
  }

  /** A drop that is out of reach or rejected puts the detached card back. */
  lemma PutBackLanding(bd: Board, c: nat, radius: real)
    requires bd.Valid() && bd.Symmetric() && c < |bd.cards|
    requires Decide(bd, c, radius).OutOfReach? || Decide(bd, c, radius).Rejected?
    ensures Dropped(bd, c, radius) == PutBack(RemovedFrom(bd, c), c, bd.cards[c].slotIndex)
  {
    DetachFacts(bd, c);
    if Decide(bd, c, radius).Rejected? {
      var o := Decide(bd, c, radius).other;
      var nearest := NearestUpTo(bd.slots, bd.cards[c].CenterX(), bd.cards[c].CenterY(), |bd.slots|);
      var b := nearest.0 as nat;
      assert bd.CardSlots()[o] == Some(b);
    }
  }

  /** Putting the detached card back restores the occupants and changes only the dropped card. */
  lemma PutBackResult(bd: Board, c: nat)
    requires bd.Valid() && bd.Symmetric() && c < |bd.cards|
    ensures var r := PutBack(RemovedFrom(bd, c), c, bd.cards[c].slotIndex);
      r.Symmetric() && r.Occupants() == bd.Occupants() && r.cards == bd.cards[c := RestoredCard(bd, c)]
  {
    var p := bd.cards[c].slotIndex;
    var d := RemovedFrom(bd, c);
    if p.Some? {
      OccupancyAt(bd, p.value, c);
      FillKeepsSymmetric(d.Occupants(), d.CardSlots(), p.value, c);
      assert Vacated(bd.Occupants(), p)[p.value := Some(c)] == bd.Occupants();
    }
  }

  /** A drop near an empty slot (or the card's own): the card takes it and its old slot, if any, is emptied. */
  lemma DropIntoEmpty(bd: Board, c: nat, radius: real, b: nat)
    requires bd.Valid() && bd.Symmetric() && c < |bd.cards| && Decide(bd, c, radius) == IntoEmpty(b)
    ensures b < |bd.slots|
    ensures var r := Dropped(bd, c, radius);
      r.Symmetric() &&
      r.Occupants() == Vacated(bd.Occupants(), bd.cards[c].slotIndex)[b := Some(c)] &&
      r.cards == bd.cards[c := Placed(bd.DetachedCard(c), bd.slots[b].spec, b)]
  {
    IntoEmptyLanding(bd, c, radius, b);
    IntoEmptyResult(bd, c, b);
  }

  /** A drop into an empty slot places the detached card there. */
  lemma IntoEmptyLanding(bd: Board, c: nat, radius: real, b: nat)
    requires bd.Valid() && bd.Symmetric() && c < |bd.cards| && Decide(bd, c, radius) == IntoEmpty(b)
    ensures b < |bd.slots| && (bd.slots[b].occupant.None? || bd.slots[b].occupant == Some(c))
    ensures Dropped(bd, c, radius) == PlaceIn(RemovedFrom(bd, c), c, b)
  {
    DetachFacts(bd, c);
    if bd.slots[b].occupant == Some(c) {
      assert bd.CardSlots()[c] == Some(b);
    }
  }

  /** Placing the detached card into a slot that is empty or its own. */
  lemma IntoEmptyResult(bd: Board, c: nat, b: nat)
    requires bd.Valid() && bd.Symmetric() && c < |bd.cards| && b < |bd.slots|
    requires bd.slots[b].occupant.None? || bd.slots[b].occupant == Some(c)
    ensures var r := PlaceIn(RemovedFrom(bd, c), c, b);
      r.Symmetric() &&
      r.Occupants() == Vacated(bd.Occupants(), bd.cards[c].slotIndex)[b := Some(c)] &&
      r.cards == bd.cards[c := Placed(bd.DetachedCard(c), bd.slots[b].spec, b)]
  {
    var d := RemovedFrom(bd, c);
    if bd.slots[b].occupant == Some(c) {
      OccupancyAt(bd, b, c);
    }
    FillKeepsSymmetric(d.Occupants(), d.CardSlots(), b, c);
  }

  /**
   * A drop onto a draggable card o in slot b: the dropped card takes slot b; o moves into the dropped
   * card's old slot, or, when the dropped card had none, loses its slot and goes home.
   */
  lemma DropSwapped(bd: Board, c: nat, radius: real, b: nat, o: nat)
    requires bd.Valid() && bd.Symmetric() && c < |bd.cards| && Decide(bd, c, radius) == Swapped(b, o)
    ensures b < |bd.slots| && o < |bd.cards| && o != c && bd.cards[c].slotIndex != Some(b)
    ensures var r := Dropped(bd, c, radius);
      var p := bd.cards[c].slotIndex;
      r.Symmetric() &&
      (p.Some? ==>
        r.Occupants() == bd.Occupants()[p.value := Some(o)][b := Some(c)] &&
        r.cards == bd.cards[c := Placed(bd.DetachedCard(c), bd.slots[b].spec, b)]
                           [o := Placed(bd.cards[o], bd.slots[p.value].spec, p.value)]) &&
      (p.None? ==>
        r.Occupants() == bd.Occupants()[b := Some(c)] &&
        r.cards == bd.cards[c := Placed(bd.cards[c], bd.slots[b].spec, b)][o := SentHome(bd.cards[o])])
  {
    SwapLanding(bd, c, radius, b, o);
    SwapResult(bd, c, b, o);
  }

  /** A swapping drop lands through the swap half, on the board with the dropped card detached. */
  lemma SwapLanding(bd: Board, c: nat, radius: real, b: nat, o: nat)
    requires bd.Valid() && bd.Symmetric() && c < |bd.cards| && Decide(bd, c, radius) == Swapped(b, o)
    ensures b < |bd.slots| && o < |bd.cards| && o != c && bd.cards[c].slotIndex != Some(b)
    ensures bd.slots[b].occupant == Some(o)
    ensures Dropped(bd, c, radius) == SwappedIn(RemovedFrom(bd, c), c, b, o, bd.cards[c].slotIndex)
  {
    DetachFacts(bd, c);
    assert bd.CardSlots()[o] == Some(b);
  }

  /** The swap half on the detached board: the two cards trade places, or o is sent home. */
  lemma SwapResult(bd: Board, c: nat, b: nat, o: nat)
    requires bd.Valid() && bd.Symmetric() && c < |bd.cards| && b < |bd.slots| && o < |bd.cards| && o != c
    requires bd.slots[b].occupant == Some(o) && bd.cards[c].slotIndex != Some(b)
    ensures var r := SwappedIn(RemovedFrom(bd, c), c, b, o, bd.cards[c].slotIndex);
      var p := bd.cards[c].slotIndex;
      r.Symmetric() &&
      (p.Some? ==>
        r.Occupants() == bd.Occupants()[p.value := Some(o)][b := Some(c)] &&
        r.cards == bd.cards[c := Placed(bd.DetachedCard(c), bd.slots[b].spec, b)]
                           [o := Placed(bd.cards[o], bd.slots[p.value].spec, p.value)]) &&
      (p.None? ==>
        r.Occupants() == bd.Occupants()[b := Some(c)] &&
        r.cards == bd.cards[c := Placed(bd.cards[c], bd.slots[b].spec, b)][o := SentHome(bd.cards[o])])
  {
    var p := bd.cards[c].slotIndex;
    var d := RemovedFrom(bd, c);
    var e := PlaceIn(d, c, b);
    if p.Some? {
      var q := p.value;
      OccupancyAt(bd, q, c);
      assert e.slots[q].occupant.None?;
      SwapKeepsSymmetric(d.Occupants(), d.CardSlots(), b, c, o, q);
      UpdateReorder(bd.Occupants(), q, b, None, Some(o), Some(c));
    } else {
      EvictKeepsSymmetric(d.Occupants(), d.CardSlots(), b, c, o);
    }
  }

  /** Whatever the outcome, a drop keeps a symmetric board symmetric. */
  lemma DropKeepsSymmetric(bd: Board, c: nat, radius: real)
    requires bd.Valid() && bd.Symmetric() && c < |bd.cards|
    ensures Dropped(bd, c, radius).Symmetric()
  {
    match Decide(bd, c, radius)
    case OutOfReach => DropOutOfReach(bd, c, radius);
    case Rejected(o) => DropRejected(bd, c, radius, o);
    case IntoEmpty(b) => DropIntoEmpty(bd, c, radius, b);
    case Swapped(b, o) => DropSwapped(bd, c, radius, b, o);
  }

  /** A drop keeps the number of filled slots, except that an unslotted card landing in an empty slot adds one. */
  lemma DropCount(bd: Board, c: nat, radius: real)
    requires bd.Valid() && bd.Symmetric() && c < |bd.cards|
    ensures CountOccupied(Dropped(bd, c, radius).Occupants()) ==
      CountOccupied(bd.Occupants()) + (if Decide(bd, c, radius).IntoEmpty? && bd.cards[c].slotIndex.None? then 1 else 0)
  {
    match Decide(bd, c, radius)
    case OutOfReach => DropOutOfReach(bd, c, radius);
    case Rejected(o) => DropRejected(bd, c, radius, o);
    case IntoEmpty(b) => IntoEmptyCount(bd, c, radius, b);
    case Swapped(b, o) => SwappedCount(bd, c, radius, b, o);
  }

  lemma IntoEmptyCount(bd: Board, c: nat, radius: real, b: nat)
    requires bd.Valid() && bd.Symmetric() && c < |bd.cards| && Decide(bd, c, radius) == IntoEmpty(b)
    ensures CountOccupied(Dropped(bd, c, radius).Occupants()) ==
      CountOccupied(bd.Occupants()) + (if bd.cards[c].slotIndex.None? then 1 else 0)
  {
    IntoEmptyLanding(bd, c, radius, b);
    IntoEmptyResult(bd, c, b);
    FillOccupiedCount(bd, c, b);
  }

  /** Moving card c into slot b, empty or its own, adds one filled slot only when c had none. */
  lemma FillOccupiedCount(bd: Board, c: nat, b: nat)
    requires bd.Valid() && bd.Symmetric() && c < |bd.cards| && b < |bd.slots|
    requires bd.slots[b].occupant.None? || bd.slots[b].occupant == Some(c)
    ensures CountOccupied(Vacated(bd.Occupants(), bd.cards[c].slotIndex)[b := Some(c)]) ==
      CountOccupied(bd.Occupants()) + (if bd.cards[c].slotIndex.None? then 1 else 0)
  {
    var p := bd.cards[c].slotIndex;
    var occ := bd.Occupants();
    OccupancyAt(bd, b, c);
    if p.Some? {
      var q := p.value;
      OccupancyAt(bd, q, c);
      if q == b {
        assert occ[q := None][b := Some(c)] == occ;
      } else {
        CountMove(occ, q, b, c);
      }
    } else {
      CountOccupiedFill(occ, b, c);
    }
  }

  lemma SwappedCount(bd: Board, c: nat, radius: real, b: nat, o: nat)
    requires bd.Valid() && bd.Symmetric() && c < |bd.cards| && Decide(bd, c, radius) == Swapped(b, o)
    ensures CountOccupied(Dropped(bd, c, radius).Occupants()) == CountOccupied(bd.Occupants())
  {
    SwapLanding(bd, c, radius, b, o);
    SwapResult(bd, c, b, o);
    SwapOccupiedCount(bd, c, b);
  }

  /** Filling slot b, which holds a card, and the dropped card's slot, which holds it, keeps the count. */
  lemma SwapOccupiedCount(bd: Board, c: nat, b: nat)
    requires bd.Valid() && bd.Symmetric() && c < |bd.cards| && b < |bd.slots| && bd.slots[b].occupant.Some?
    ensures var occ := bd.Occupants();
      var p := bd.cards[c].slotIndex;
      forall o, x :: (p.Some? ==> CountOccupied(occ[p.value := Some(o)][b := Some(x)]) == CountOccupied(occ)) &&
        (p.None? ==> CountOccupied(occ[b := Some(x)]) == CountOccupied(occ))
  {
    var p := bd.cards[c].slotIndex;
    var occ := bd.Occupants();
    forall o, x ensures (p.Some? ==> CountOccupied(occ[p.value := Some(o)][b := Some(x)]) == CountOccupied(occ)) &&
      (p.None? ==> CountOccupied(occ[b := Some(x)]) == CountOccupied(occ))
    {
      if p.Some? {
        var q := p.value;
        OccupancyAt(bd, q, c);
        CountOccupiedUpdate(occ, q, Some(o));
        CountOccupiedUpdate(occ[q := Some(o)], b, Some(x));
      } else {
        CountOccupiedUpdate(occ, b, Some(x));
      }
    }
  }

  /**
   * The `dragend` handler: with a bottom threshold set, a slotted card released below it is removed
   * from its slot; every other release goes through the snap-or-swap step.
   */
  function DragEnded(bd: Board, c: nat, radius: real, threshold: Option<real>): (r: Board)
    requires bd.Valid() && c < |bd.cards|
    ensures r.Valid() && bd.SameLayout(r)
  {
    if threshold.Some? && bd.cards[c].slotIndex.Some? && bd.cards[c].CenterY() > threshold.value then RemovedFrom(bd, c)
    else Dropped(bd, c, radius)
  }

  /**
   * Dragging a slotted card below the threshold empties its slot and leaves it unslotted where it was let go;
   * otherwise the release is a drop. Either way a symmetric board stays symmetric.
   */
  lemma DragEndEffect(bd: Board, c: nat, radius: real, threshold: Option<real>)
    requires bd.Valid() && bd.Symmetric() && c < |bd.cards|
    ensures DragEnded(bd, c, radius, threshold).Symmetric()
    ensures
      var r := DragEnded(bd, c, radius, threshold);
      var p := bd.cards[c].slotIndex;
      if threshold.Some? && p.Some? && bd.cards[c].CenterY() > threshold.value then
        r.Occupants() == bd.Occupants()[p.value := None] && r.cards[c].slotIndex.None? &&
        r.cards[c].CenterY() == bd.cards[c].CenterY() &&
        CountOccupied(r.Occupants()) + 1 == CountOccupied(bd.Occupants())
      else r == Dropped(bd, c, radius)
  {
    var p := bd.cards[c].slotIndex;
    if threshold.Some? && p.Some? && bd.cards[c].CenterY() > threshold.value {
      assert bd.Occupants()[p.value] == Some(c) by { assert bd.CardSlots()[c] == Some(p.value); }
      CountOccupiedFill(bd.Occupants()[p.value := None], p.value, c);
      assert bd.Occupants()[p.value := None][p.value := Some(c)] == bd.Occupants();
    } else {
      DropKeepsSymmetric(bd, c, radius);
    }
  }

  /** A card grabbed at cursor (px, py): the offset from the cursor to the card's centre is recorded. */
  function Grabbed(v: CardView, px: real, py: real): (r: CardView)
    ensures r.CenterX() == v.CenterX() && r.CenterY() == v.CenterY()
    ensures px + r.dragOffX == v.CenterX() && py + r.dragOffY == v.CenterY()
    ensures r.(dragOffX := v.dragOffX, dragOffY := v.dragOffY) == v
  {
    v.(dragOffX := v.CenterX() - px, dragOffY := v.CenterY() - py)
  }

  /** A card dragged to cursor (px, py): its centre follows the cursor at the recorded offset. */
  function DraggedTo(v: CardView, px: real, py: real): (r: CardView)
    ensures r.CenterX() == px + v.dragOffX && r.CenterY() == py + v.dragOffY
  {
    SnappedTo(v, px + v.dragOffX, py + v.dragOffY)
  }

  /** After a grab, moving the cursor by (dx, dy) moves the card's centre by exactly (dx, dy): no jump at pickup. */
  lemma GrabThenDrag(v: CardView, px: real, py: real, dx: real, dy: real)
    ensures DraggedTo(Grabbed(v, px, py), px + dx, py + dy).CenterX() == v.CenterX() + dx
    ensures DraggedTo(Grabbed(v, px, py), px + dx, py + dy).CenterY() == v.CenterY() + dy
  {
  }

  /** The card side of a placement: the card records slot i, glides to the slot's centre, then onPlace fires. */
  method SeatCard(card: WordCard, spec: SlotSpec, i: nat)
    modifies card
    ensures card.View() == Placed(old(card.View()), spec, i)
  {
    card.SetSlotIndex(Some(i));
    card.SnapToCenter(spec.x, spec.y);
    if spec.callbacks.SentenceCallbacks? && spec.callbacks.slotIndex == 0 {
      card.SetDisplayWord(Capitalized(card.word));
    }
  }

  class SlotScreen {
    var slots: seq<Slot>
    var cards: seq<WordCard>
    var snapRadius: real
    var bottomAreaThresholdY: Option<real>
    var lastSlotRowY: real

    /** Every card's state, by card id. */
    ghost function Views(): (vs: seq<CardView>)
      reads this, cards
      ensures |vs| == |cards| && forall k :: 0 <= k < |cards| ==> vs[k] == cards[k].View()
    {
      seq(|cards|, k requires 0 <= k < |cards| reads this, cards => cards[k].View())
    }

    /** The screen's slots and cards as a board value. */
    ghost function Model(): Board
      reads this, cards
    {
      Board(slots, Views())
    }

    /** Cards are distinct objects, and every card id and slot index is in range. */
    ghost predicate Valid()
      reads this, cards
    {
      (forall i, j :: 0 <= i < j < |cards| ==> cards[i] != cards[j]) && Model().Valid()
    }

    /** The words shown by the slots, "" for an empty slot (what the scenes score). */
    function OccupantWords(): (words: seq<string>)
      reads this, cards
      requires Valid()
      ensures |words| == |slots|
      ensures forall i :: 0 <= i < |slots| ==>
        words[i] == (if slots[i].occupant.Some? then cards[slots[i].occupant.value].word else "")
    {
      seq(|slots|, i requires 0 <= i < |slots| && Valid() reads this, cards =>
        if slots[i].occupant.Some? then cards[slots[i].occupant.value].word else "")
    }

    constructor ()
      ensures slots == [] && cards == []
      ensures snapRadius == DefaultSnapRadius && bottomAreaThresholdY == None && lastSlotRowY == 0.0
      ensures Valid() && Model().Symmetric()
    {
      slots := [];
      cards := [];
      snapRadius := DefaultSnapRadius;
      bottomAreaThresholdY := None;
      lastSlotRowY := 0.0;
    }

    /** Given values replace the current ones; missing values keep them. */
    method Configure(radius: Option<real>, threshold: Option<real>)
      modifies this`snapRadius, this`bottomAreaThresholdY
      ensures snapRadius == radius.GetOr(old(snapRadius))
      ensures bottomAreaThresholdY == (if threshold.Some? then threshold else old(bottomAreaThresholdY))
    {
      snapRadius := radius.GetOr(snapRadius);
      if threshold.Some? {
        bottomAreaThresholdY := threshold;
      }
    }

    /** One empty slot per spec, in order; lastSlotRowY is the largest centre y (at least 0). */
    method BuildSlots(specs: seq<SlotSpec>)
      requires Valid() && forall k :: 0 <= k < |cards| ==> cards[k].slotIndex.None?
      modifies this`slots, this`lastSlotRowY
      ensures Valid() && Model().Symmetric()
      ensures |slots| == |specs|
      ensures forall i :: 0 <= i < |specs| ==> slots[i] == Slot(specs[i], None)
      ensures lastSlotRowY == MaxSpecY(specs)
    {
      slots := seq(|specs|, i requires 0 <= i < |specs| => Slot(specs[i], None));
      lastSlotRowY := MaxSpecY(specs);
    }

    /** The scenes push each card they create. */
    method AddCard(card: WordCard)
      requires Valid() && card !in cards && card.slotIndex == None
      modifies this`cards
      ensures Valid() && cards == old(cards) + [card]
      ensures Model() == Board(old(slots), old(Views()) + [card.View()])
      ensures old(Model().Symmetric()) ==> Model().Symmetric()
    {
      cards := cards + [card];
      assert Model().Occupants() == old(Model().Occupants());
      assert Model().CardSlots() == old(Model().CardSlots()) + [None];
    }

    /**
     * Puts card c into slot i and fires the slot's onPlace. Nothing guards the index and
     * nothing is detached: the card's old slot and the slot's old occupant keep their claims.
     */
    method PlaceCardInSlot(c: nat, i: nat)
      requires Valid() && c < |cards| && i < |slots|
      modifies this`slots, cards[c]
      ensures Valid() && cards == old(cards)
      ensures Model() == PlaceIn(old(Model()), c, i)
    {
      var slot := slots[i];
      slots := slots[i := slot.(occupant := Some(c))];
      SeatCard(cards[c], slot.spec, i);
      assert Views() == old(Views())[c := cards[c].View()];
    }

    /** The card side of a removal: the slot's onRemove fires, then the card loses its index and shows its own word. */
    method DetachCard(c: nat, cb: SlotCallbacks)
      requires Valid() && c < |cards|
      modifies cards[c]
      ensures Views() == old(Views())[c := Detached(old(cards[c].View()), cb)]
    {
      if cb.SentenceCallbacks? && cb.slotIndex == 0 {
        cards[c].ResetDisplayWord();
      }
      cards[c].SetSlotIndex(None);
      cards[c].ResetDisplayWord();
      assert Views() == old(Views())[c := cards[c].View()];
    }

    /**
     * Takes a slotted card out: the slot is cleared only if it holds this card, onRemove fires
     * with the old index, then the card loses its index and its display is reset.
     */
    method RemoveFromSlot(c: nat)
      requires Valid() && c < |cards|
      modifies this`slots, cards[c]
      ensures Valid() && cards == old(cards)
      ensures Model() == RemovedFrom(old(Model()), c)
    {
      var idx := cards[c].slotIndex;
      if idx.None? {
        return;
      }
      var slot := slots[idx.value];
      if slot.occupant == Some(c) {
        slots := slots[idx.value := slot.(occupant := None)];
      }
      DetachCard(c, slot.spec.callbacks);
    }

    /** Kicks card k out of play: its index is cleared, its display reset, and it glides home. */
    method SendHome(k: nat)
      requires Valid() && k < |cards|
      modifies cards[k]
      ensures Valid()
      ensures Model() == EvictedHome(old(Model()), k)
    {
      cards[k].SetSlotIndex(None);
      cards[k].ResetDisplayWord();
      cards[k].ReturnHome();
      assert Views() == old(Views())[k := cards[k].View()];
    }

    /** The drop handler's snap-or-swap step for card c; the Drop lemmas say what it does outcome by outcome. */
    method TrySnapOrSwap(c: nat)
      requires Valid() && c < |cards|
      modifies this`slots, cards
      ensures Valid() && cards == old(cards)
      ensures Model() == Dropped(old(Model()), c, snapRadius)
    {
      var prevIndex := cards[c].slotIndex;
      // Detaching is the same bookkeeping as removeFromSlot.
      RemoveFromSlot(c);
      Land(c, prevIndex);
    }

    /** Finds the slot nearest to the detached card c and lands it there, puts it back into prevIndex, or swaps. */
    method Land(c: nat, prevIndex: Option<nat>)
      requires Valid() && c < |cards| && (prevIndex.Some? ==> prevIndex.value < |slots|)
      modifies this`slots, cards
      ensures Valid() && cards == old(cards)
      ensures Model() == Landed(old(Model()), c, prevIndex, snapRadius)
    {
      ghost var m := Model();
      assert m.cards[c] == cards[c].View();
      var bestIndex, bestDist2 := FindNearest(slots, cards[c].CenterX(), cards[c].CenterY());
      assert Model() == m;
      if bestIndex < 0 || !WithinRadius(bestDist2.value, snapRadius) {
        assert Landed(m, c, prevIndex, snapRadius) == PutBack(m, c, prevIndex);
        PutBackCard(c, prevIndex);
        return;
      }
      assert Landed(m, c, prevIndex, snapRadius) == LandedAt(m, c, bestIndex as nat, prevIndex);
      LandAt(c, bestIndex as nat, prevIndex);
    }

    /** Lands the detached card c on slot b, which is within reach. */
    method LandAt(c: nat, b: nat, prevIndex: Option<nat>)
      requires Valid() && c < |cards| && b < |slots| && (prevIndex.Some? ==> prevIndex.value < |slots|)
      modifies this`slots, cards
      ensures Valid() && cards == old(cards)
      ensures Model() == LandedAt(old(Model()), c, b, prevIndex)
    {
      ghost var m := Model();
      var target := slots[b];
      if target.occupant.None? {
        PlaceCardInSlot(c, b);
        return;
      }
      var other := target.occupant.value;
      assert m.cards[other] == cards[other].View();
      if !cards[other].isDraggable {
        PutBackCard(c, prevIndex);
        return;
      }
      SwapWith(c, b, other, prevIndex);
    }

    /** Card c goes back into the slot it came from, if any; a card from the bank stays where it was dropped. */
    method PutBackCard(c: nat, prevIndex: Option<nat>)
      requires Valid() && c < |cards| && (prevIndex.Some? ==> prevIndex.value < |slots|)
      modifies this`slots, cards
      ensures Valid() && cards == old(cards)
      ensures Model() == PutBack(old(Model()), c, prevIndex)
    {
      if prevIndex.Some? {
        PlaceCardInSlot(c, prevIndex.value);
      }
    }

    /** Card c takes slot b from `other`, which moves into prevIndex if that slot is empty by then, or goes home. */
    method SwapWith(c: nat, b: nat, other: nat, prevIndex: Option<nat>)
      requires Valid() && c < |cards| && other < |cards| && b < |slots| && (prevIndex.Some? ==> prevIndex.value < |slots|)
      modifies this`slots, cards
      ensures Valid() && cards == old(cards)
      ensures Model() == SwappedIn(old(Model()), c, b, other, prevIndex)
    {
      PlaceCardInSlot(c, b);
      if prevIndex.Some? && slots[prevIndex.value].occupant.None? {
        PlaceCardInSlot(other, prevIndex.value);
        return;
      }
      SendHome(other);
    }

    /** The `dragend` handler for card c. */
    method DragEnd(c: nat)
      requires Valid() && c < |cards|
      modifies this`slots, cards
      ensures Valid() && cards == old(cards)
      ensures Model() == DragEnded(old(Model()), c, snapRadius, bottomAreaThresholdY)
    {
      ghost var m := Model();
      assert m.cards[c] == cards[c].View();
      var idx := cards[c].slotIndex;
      if bottomAreaThresholdY.Some? && idx.Some? && cards[c].CenterY() > bottomAreaThresholdY.value {
        RemoveFromSlot(c);
        return;
      }
      TrySnapOrSwap(c);
    }

    /** The `dragstart` handler: records the offset from the cursor (px, py) to card c's centre. */
    method DragStart(c: nat, px: real, py: real)
      requires Valid() && c < |cards|
      modifies cards[c]
      ensures Valid()
      ensures Model() == Board(slots, old(Views())[c := Grabbed(old(cards[c].View()), px, py)])
    {
      cards[c].dragOffX := cards[c].CenterX() - px;
      cards[c].dragOffY := cards[c].CenterY() - py;
      assert Views() == old(Views())[c := cards[c].View()];
    }

    /** The `drag` handler: card c's centre follows the cursor (px, py) at the recorded offset. */
    method Drag(c: nat, px: real, py: real)
      requires Valid() && c < |cards|
      modifies cards[c]
      ensures Valid()
      ensures Model() == Board(slots, old(Views())[c := DraggedTo(old(cards[c].View()), px, py)])
    {
      cards[c].SetCenter(px + cards[c].dragOffX, py + cards[c].dragOffY);
      assert Views() == old(Views())[c := cards[c].View()];
    }
  }
}
