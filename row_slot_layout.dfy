/**
 * The row slot layout (src/ui/layout/SimpleRowSlotLayoutGenerator.ts): rows of card-sized slots,
 * each row justified left, right or centre, the whole block centred vertically in an area.
 * Row counts are modelled as integers.
 */
module RowSlotLayout {
  import opened Wrappers
  import opened LayoutTypes

  const DefaultGapX: real := 20.0
  const DefaultGapY: real := 30.0

  /** The generator's parameters; missing gaps and justifications take their defaults. */
  datatype RowParams = RowParams(
    slotsPerRow: seq<int>, cardW: real, cardH: real, area: Rect,
    justify: seq<RowJustify>, gapX: Option<real>, gapY: Option<real>)
  {
    function GapX(): real { gapX.GetOr(DefaultGapX) }
    function GapY(): real { gapY.GetOr(DefaultGapY) }

    /** Row r's justification: the given one, or centre when none is given. */
    function JustifyAt(r: nat): (j: RowJustify)
      ensures r >= |justify| ==> j == Center
    {
      if r < |justify| then justify[r] else Center
    }
  }

  /** Width of a row of n cards: zero for an empty (or negative) count. */
  function RowWidth(n: int, cardW: real, gapX: real): (w: real)
    ensures n <= 0 ==> w == 0.0
    ensures n > 0 ==> w == n as real * cardW + (n - 1) as real * gapX
  {
    if n <= 0 then 0.0 else n as real * cardW + (n - 1) as real * gapX
  }

  /** The widest row, never below 0. */
  function MaxRowWidth(ns: seq<int>, cardW: real, gapX: real): (m: real)
    ensures m >= 0.0
    ensures forall r :: 0 <= r < |ns| ==> RowWidth(ns[r], cardW, gapX) <= m
    ensures m == 0.0 || exists r :: 0 <= r < |ns| && RowWidth(ns[r], cardW, gapX) == m
  {
    if ns == [] then 0.0
    else
      var rest := MaxRowWidth(ns[..|ns| - 1], cardW, gapX);
      var last := RowWidth(ns[|ns| - 1], cardW, gapX);
      if last > rest then last else rest
  }

  /** Height of the block: every row, empty or not, takes a band. */
  function TotalHeight(p: RowParams): real {
    var rows := |p.slotsPerRow|;
    rows as real * p.cardH + (rows - 1) as real * p.GapY()
  }

  /** The fit test: the widest row within the area's width and the block within its height. */
  predicate Fits(p: RowParams) {
    |p.slotsPerRow| == 0 ||
    (MaxRowWidth(p.slotsPerRow, p.cardW, p.GapX()) <= p.area.w && TotalHeight(p) <= p.area.h)
  }

  /** Number of slots the rows before r produce. */
  function SlotsBefore(ns: seq<int>, r: nat): nat
    requires r <= |ns|
  {
    if r == 0 then 0 else SlotsBefore(ns, r - 1) + (if ns[r - 1] > 0 then ns[r - 1] else 0)
  }

  /** The centre x of the first slot of row r. */
  function RowStartX(p: RowParams, r: nat): real
    requires r < |p.slotsPerRow|
  {
    var rowW := RowWidth(p.slotsPerRow[r], p.cardW, p.GapX());
    match p.JustifyAt(r)
    case Left => p.area.x + p.cardW / 2.0
    case Right => p.area.x + p.area.w - rowW + p.cardW / 2.0
    case Center => p.area.x + (p.area.w - rowW) / 2.0 + p.cardW / 2.0
  }

  /** The centre y of row r: the block is centred vertically and rows are cardH + gapY apart. */
  function RowCenterY(p: RowParams, r: nat): real {
    p.area.y + (p.area.h - TotalHeight(p)) / 2.0 + p.cardH / 2.0 + Steps(r, p.cardH + p.GapY())
  }

  /** k steps of the given length. */
  function Steps(k: int, step: real): real {
    k as real * step
  }

  /** Slot c of row r: card-sized, centred at its row's start plus c steps of cardW + gapX. */
  function SlotAt(p: RowParams, r: nat, c: nat): Rect
    requires r < |p.slotsPerRow|
  {
    Rect(RowStartX(p, r) + Steps(c, p.cardW + p.GapX()), RowCenterY(p, r), p.cardW, p.cardH)
  }

  /** The slots of row r, left to right. */
  function RowSlots(p: RowParams, r: nat): (s: seq<Rect>)
    requires r < |p.slotsPerRow|
    ensures |s| == (if p.slotsPerRow[r] > 0 then p.slotsPerRow[r] else 0)
    ensures forall c :: 0 <= c < |s| ==> s[c] == SlotAt(p, r, c)
  {
    var n := if p.slotsPerRow[r] > 0 then p.slotsPerRow[r] else 0;
    seq(n, c requires 0 <= c < n => SlotAt(p, r, c))
  }

  /** The slots of the first k rows, in row-major order. */
  function SlotsUpTo(p: RowParams, k: nat): (s: seq<Rect>)
    requires k <= |p.slotsPerRow|
    ensures |s| == SlotsBefore(p.slotsPerRow, k)
  {
    if k == 0 then [] else SlotsUpTo(p, k - 1) + RowSlots(p, k - 1)
  }

  /** In row-major order, slot c of row r sits at index SlotsBefore(r) + c. */
  lemma {:induction false} SlotIndex(p: RowParams, k: nat, r: nat, c: nat)
    requires r < k <= |p.slotsPerRow| && c < p.slotsPerRow[r]
    ensures SlotsBefore(p.slotsPerRow, r) + c < SlotsBefore(p.slotsPerRow, k)
    ensures SlotsUpTo(p, k)[SlotsBefore(p.slotsPerRow, r) + c] == SlotAt(p, r, c)
  {
    if r < k - 1 {
      SlotIndex(p, k - 1, r, c);
    }
  }

  /** `generate`: the fit test and the slots, built row by row with nested loops. */
  method Generate(p: RowParams) returns (res: SlotLayoutResult)
    ensures |p.slotsPerRow| == 0 ==> res == SlotLayoutResult(true, [])
    ensures res.fits == Fits(p)
    ensures res.slots == SlotsUpTo(p, |p.slotsPerRow|)
    ensures |res.slots| == SlotsBefore(p.slotsPerRow, |p.slotsPerRow|)
  {
    var rows := |p.slotsPerRow|;
    if rows == 0 {
      return SlotLayoutResult(true, []);
    }
    var totalH := TotalHeight(p);
    var maxRowW := MaxRowWidth(p.slotsPerRow, p.cardW, p.GapX());
    var fits := maxRowW <= p.area.w && totalH <= p.area.h;
    var slots: seq<Rect> := [];
    var r := 0;
    while r < rows
      invariant 0 <= r <= rows
      invariant slots == SlotsUpTo(p, r)
    {
      var row := RowOf(p, r);
      slots := slots + row;
      r := r + 1;
    }
    return SlotLayoutResult(fits, slots);
  }

  /** The inner loop of `generate`: the slots of row r (none for a count of 0 or less). */
  method RowOf(p: RowParams, r: nat) returns (row: seq<Rect>)
    requires r < |p.slotsPerRow|
    ensures row == RowSlots(p, r)
  {
    var n := p.slotsPerRow[r];
    row := [];
    if n <= 0 {
      assert RowSlots(p, r) == [];
      return;
    }
    var rowW := RowWidth(n, p.cardW, p.GapX());
    var startXCenter;
    match p.JustifyAt(r) {
      case Left => startXCenter := p.area.x + p.cardW / 2.0;
      case Right => startXCenter := p.area.x + p.area.w - rowW + p.cardW / 2.0;
      case Center => startXCenter := p.area.x + (p.area.w - rowW) / 2.0 + p.cardW / 2.0;
    }
    var y := RowCenterY(p, r);
    var c := 0;
    while c < n
      invariant 0 <= c <= n
      invariant row == RowSlots(p, r)[..c]
    {
      var x := startXCenter + Steps(c, p.cardW + p.GapX());
      assert Rect(x, y, p.cardW, p.cardH) == SlotAt(p, r, c);
      row := row + [Rect(x, y, p.cardW, p.cardH)];
      c := c + 1;
    }
    assert RowSlots(p, r)[..n] == RowSlots(p, r);
  }

  /** The widest-row test is the same as every row fitting, plus a non-negative area width. */
  lemma FitsIff(p: RowParams)
    requires |p.slotsPerRow| > 0
    ensures Fits(p) <==>
      0.0 <= p.area.w &&
      (forall r :: 0 <= r < |p.slotsPerRow| ==> RowWidth(p.slotsPerRow[r], p.cardW, p.GapX()) <= p.area.w) &&
      TotalHeight(p) <= p.area.h
  {
  }

  /** Neighbouring slots in a row are exactly cardW + gapX apart, and share the row's centre y. */
  lemma AdjacentSpacing(p: RowParams, r: nat, c: nat)
    requires r < |p.slotsPerRow| && c + 1 < p.slotsPerRow[r]
    ensures SlotAt(p, r, c + 1).x - SlotAt(p, r, c).x == p.cardW + p.GapX()
    ensures SlotAt(p, r, c + 1).y == SlotAt(p, r, c).y
  {
  }

  /** Consecutive rows are cardH + gapY apart, whatever their counts (empty rows keep their band). */
  lemma RowSpacing(p: RowParams, r: nat)
    requires r + 1 < |p.slotsPerRow|
    ensures RowCenterY(p, r + 1) - RowCenterY(p, r) == p.cardH + p.GapY()
  {
  }

  /** A left-justified row starts half a card in from the area's left edge. */
  lemma LeftJustified(p: RowParams, r: nat)
    requires r < |p.slotsPerRow| && p.slotsPerRow[r] > 0 && p.JustifyAt(r) == Left
    ensures SlotAt(p, r, 0).x - p.cardW / 2.0 == p.area.x
  {
  }

  /** A right-justified row's last slot ends at the area's right edge. */
  lemma RightJustified(p: RowParams, r: nat)
    requires r < |p.slotsPerRow| && p.slotsPerRow[r] > 0 && p.JustifyAt(r) == Right
    ensures SlotAt(p, r, p.slotsPerRow[r] - 1).x + p.cardW / 2.0 == p.area.x + p.area.w
  {
  }

  /** A centred row leaves the same margin on both sides. */
  lemma CenterJustified(p: RowParams, r: nat)
    requires r < |p.slotsPerRow| && p.slotsPerRow[r] > 0 && p.JustifyAt(r) == Center
    ensures (SlotAt(p, r, 0).x - p.cardW / 2.0) - p.area.x ==
      (p.area.x + p.area.w) - (SlotAt(p, r, p.slotsPerRow[r] - 1).x + p.cardW / 2.0)
  {
  }

  /** One row of three 100 x 60 cards with the default gaps in a 400 x 200 area fits, centred at x = 80, 200, 320. */
  lemma ThreeCardExample()
    ensures var p := RowParams([3], 100.0, 60.0, Rect(0.0, 0.0, 400.0, 200.0), [], None, None);
      Fits(p) && SlotAt(p, 0, 0).x == 80.0 && SlotAt(p, 0, 1).x == 200.0 && SlotAt(p, 0, 2).x == 320.0 &&
      SlotAt(p, 0, 0).y == 100.0 && SlotsBefore(p.slotsPerRow, 1) == 3
  {
    var p := RowParams([3], 100.0, 60.0, Rect(0.0, 0.0, 400.0, 200.0), [], None, None);
    assert MaxRowWidth(p.slotsPerRow, p.cardW, p.GapX()) == 340.0 by {
      assert p.slotsPerRow[..0] == [];
    }
  }
}
