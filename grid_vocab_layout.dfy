/**
 * The picture/slot grid of the vocabulary screen (src/ui/layout/SimpleGridVocabLayoutGenerator.ts):
 * count cells in a centred grid, each holding a picture with its slot below it or to its right.
 * The count and the column number are modelled as integers.
 */
module GridVocabLayout {
  import opened Wrappers
  import opened LayoutTypes

  const DefaultPictureSlotGap: real := 16.0
  const DefaultGridGapX: real := 40.0
  const DefaultGridGapY: real := 40.0

  /** The generator's parameters as given; missing ones take their defaults. */
  datatype GridParams = GridParams(
    count: int, area: Rect, pictureW: real, pictureH: real, slotW: real, slotH: real,
    columns: Option<int>, gapX: Option<real>, gapY: Option<real>,
    slotPlacement: Option<SlotPlacement>, pictureSlotGap: Option<real>)
  {
    function Placement(): SlotPlacement { slotPlacement.GetOr(Below) }
    function Gap(): real { pictureSlotGap.GetOr(DefaultPictureSlotGap) }
    function GapX(): real { gapX.GetOr(DefaultGridGapX) }
    function GapY(): real { gapY.GetOr(DefaultGridGapY) }

    /** The given column number, or 2 for up to four items and 3 beyond. */
    function Columns(): (cols: int)
      ensures columns.None? ==> cols == (if count <= 4 then 2 else 3)
      ensures columns.Some? ==> cols == columns.value
    {
      match columns
      case Some(cols) => cols
      case None => if count <= 2 then 2 else if count <= 4 then 2 else 3
    }
  }

  function Max(a: real, b: real): (m: real)
    ensures m >= a && m >= b && (m == a || m == b)
  {
    if a >= b then a else b
  }

  /** `Math.ceil(a / b)` for a positive b. */
  function CeilDiv(a: int, b: int): (q: int)
    requires b > 0
    ensures (q - 1) * b < a <= q * b
  {
    -((-a) / b)
  }

  function Rows(p: GridParams): int
    requires p.Columns() >= 1
  {
    CeilDiv(p.count, p.Columns())
  }

  /** Cell width: picture and slot side by side, or the wider of the two when stacked. */
  function CellW(p: GridParams): real {
    if p.Placement() == RightOf then p.pictureW + p.Gap() + p.slotW else Max(p.pictureW, p.slotW)
  }

  /** Cell height: picture over gap over slot when stacked, or the taller of the two side by side. */
  function CellH(p: GridParams): real {
    if p.Placement() == Below then p.pictureH + p.Gap() + p.slotH else Max(p.pictureH, p.slotH)
  }

  /** k steps of the given length. */
  function Steps(k: int, step: real): real {
    k as real * step
  }

  function TotalW(p: GridParams): real
    requires p.Columns() >= 1
  {
    Steps(p.Columns(), CellW(p)) + Steps(p.Columns() - 1, p.GapX())
  }

  function TotalH(p: GridParams): real
    requires p.Columns() >= 1
  {
    Steps(Rows(p), CellH(p)) + Steps(Rows(p) - 1, p.GapY())
  }

  predicate Fits(p: GridParams)
    requires p.Columns() >= 1
  {
    TotalW(p) <= p.area.w && TotalH(p) <= p.area.h
  }

  /** The grid's top-left corner: the grid is centred in the area. */
  function StartX(p: GridParams): real
    requires p.Columns() >= 1
  {
    p.area.x + (p.area.w - TotalW(p)) / 2.0
  }

  function StartY(p: GridParams): real
    requires p.Columns() >= 1
  {
    p.area.y + (p.area.h - TotalH(p)) / 2.0
  }

  /** Item i: cell (i / columns, i % columns), picture and slot placed inside the cell. */
  function ItemAt(p: GridParams, i: nat): PictureSlotLayout
    requires p.Columns() >= 1
  {
    var cols := p.Columns();
    var cellLeft := StartX(p) + Steps(i % cols, CellW(p) + p.GapX());
    var cellTop := StartY(p) + Steps(i / cols, CellH(p) + p.GapY());
    var picture :=
      if p.Placement() == Below then Rect(cellLeft + CellW(p) / 2.0, cellTop + p.pictureH / 2.0, p.pictureW, p.pictureH)
      else Rect(cellLeft + p.pictureW / 2.0, cellTop + CellH(p) / 2.0, p.pictureW, p.pictureH);
    var slot :=
      if p.Placement() == Below then Rect(cellLeft + CellW(p) / 2.0, cellTop + p.pictureH + p.Gap() + p.slotH / 2.0, p.slotW, p.slotH)
      else Rect(cellLeft + p.pictureW + p.Gap() + p.slotW / 2.0, cellTop + CellH(p) / 2.0, p.slotW, p.slotH);
    PictureSlotLayout(picture, slot)
  }

  /** `generate`: the fit test, and one item per index built in a loop. Needs at least one column. */
  method Generate(p: GridParams) returns (res: VocabLayoutResult)
    requires p.Columns() >= 1
    ensures res.fits == Fits(p)
    ensures |res.items| == (if p.count > 0 then p.count else 0)
    ensures forall i :: 0 <= i < |res.items| ==> res.items[i] == ItemAt(p, i)
  {
    var columns := p.Columns();
    var rows := CeilDiv(p.count, columns);
    var cellW := CellW(p);
    var cellH := CellH(p);
    var totalW := Steps(columns, cellW) + Steps(columns - 1, p.GapX());
    var totalH := Steps(rows, cellH) + Steps(rows - 1, p.GapY());
    var fits := totalW <= p.area.w && totalH <= p.area.h;
    var startX := p.area.x + (p.area.w - totalW) / 2.0;
    var startY := p.area.y + (p.area.h - totalH) / 2.0;
    var items: seq<PictureSlotLayout> := [];
    var i := 0;
    while i < p.count
      invariant 0 <= i && |items| == i && (i <= p.count || i == 0)
      invariant forall k :: 0 <= k < i ==> items[k] == ItemAt(p, k)
    {
      var r := i / columns;
      var c := i % columns;
      var cellLeft := startX + Steps(c, cellW + p.GapX());
      var cellTop := startY + Steps(r, cellH + p.GapY());
      var item;
      if p.Placement() == Below {
        item := PictureSlotLayout(
          Rect(cellLeft + cellW / 2.0, cellTop + p.pictureH / 2.0, p.pictureW, p.pictureH),
          Rect(cellLeft + cellW / 2.0, cellTop + p.pictureH + p.Gap() + p.slotH / 2.0, p.slotW, p.slotH));
      } else {
        item := PictureSlotLayout(
          Rect(cellLeft + p.pictureW / 2.0, cellTop + cellH / 2.0, p.pictureW, p.pictureH),
          Rect(cellLeft + p.pictureW + p.Gap() + p.slotW / 2.0, cellTop + cellH / 2.0, p.slotW, p.slotH));
      }
      items := items + [item];
      i := i + 1;
    }
    return VocabLayoutResult(fits, items);
  }

  /** Rows are the least number that holds every item: (rows - 1) full rows are too few, rows are enough. */
  lemma RowsHoldItems(p: GridParams)
    requires p.Columns() >= 1 && p.count > 0
    ensures Rows(p) >= 1
    ensures (Rows(p) - 1) * p.Columns() < p.count <= Rows(p) * p.Columns()
  {
  }

  /** Item i sits inside the grid: its row is below Rows(p) and its column below the column count. */
  lemma {:induction false} ItemCell(p: GridParams, i: nat)
    requires p.Columns() >= 1 && i < p.count
    ensures 0 <= i / p.Columns() < Rows(p) && 0 <= i % p.Columns() < p.Columns()
  {
    var cols, q := p.Columns(), Rows(p);
    var qi := i / cols;
    assert qi * cols <= i < q * cols;
    assert (q - qi) * cols == q * cols - qi * cols;
  }

  /** Stacked placement: picture and slot share a centre x, and the slot's centre is picture-half, gap and slot-half lower. */
  lemma BelowPlacement(p: GridParams, i: nat)
    requires p.Columns() >= 1 && p.Placement() == Below
    ensures ItemAt(p, i).slot.x == ItemAt(p, i).picture.x
    ensures ItemAt(p, i).slot.y - ItemAt(p, i).picture.y == p.pictureH / 2.0 + p.Gap() + p.slotH / 2.0
  {
  }

  /** Side-by-side placement: picture and slot share a centre y, and the slot's centre is picture-half, gap and slot-half further right. */
  lemma RightPlacement(p: GridParams, i: nat)
    requires p.Columns() >= 1 && p.Placement() == RightOf
    ensures ItemAt(p, i).slot.y == ItemAt(p, i).picture.y
    ensures ItemAt(p, i).slot.x - ItemAt(p, i).picture.x == p.pictureW / 2.0 + p.Gap() + p.slotW / 2.0
  {
  }

  /** Picture and slot keep the sizes they were given. */
  lemma ItemSizes(p: GridParams, i: nat)
    requires p.Columns() >= 1
    ensures ItemAt(p, i).picture.w == p.pictureW && ItemAt(p, i).picture.h == p.pictureH
    ensures ItemAt(p, i).slot.w == p.slotW && ItemAt(p, i).slot.h == p.slotH
  {
  }

  /** The grid is centred: equal margins left and right, and top and bottom. */
  lemma GridCentred(p: GridParams)
    requires p.Columns() >= 1
    ensures StartX(p) - p.area.x == (p.area.x + p.area.w) - (StartX(p) + TotalW(p))
    ensures StartY(p) - p.area.y == (p.area.y + p.area.h) - (StartY(p) + TotalH(p))
  {
  }

  /** k copies of d, for k >= 1, are at least d. */
  lemma {:induction false} MulAtLeast(k: int, d: int)
    requires k >= 1 && d >= 1
    ensures k * d >= d
  {
    assert k * d == d + (k - 1) * d;
  }

  /** Euclidean division is unique: n = q * d + r with 0 <= r < d fixes the quotient and the remainder. */
  lemma {:induction false} DivModUnique(n: int, d: int, q: int, r: int)
    requires d >= 1 && n == q * d + r && 0 <= r < d
    ensures n / d == q && n % d == r
  {
    var q', r' := n / d, n % d;
    assert n == q' * d + r' && 0 <= r' < d;
    assert (q - q') * d == r' - r;
    if q > q' {
      MulAtLeast(q - q', d);
      assert false;
    } else if q < q' {
      MulAtLeast(q' - q, d);
      assert false;
    }
  }

  /** The item after a non-last item of a row stays in that row, one column further. */
  lemma {:induction false} NextInRow(i: nat, cols: int)
    requires cols >= 1 && i % cols + 1 < cols
    ensures (i + 1) % cols == i % cols + 1 && (i + 1) / cols == i / cols
  {
    DivModUnique(i + 1, cols, i / cols, i % cols + 1);
  }

  /** Neighbouring items in a row are one cell plus gapX apart. */
  lemma ColumnStep(p: GridParams, i: nat)
    requires p.Columns() >= 1 && i % p.Columns() + 1 < p.Columns()
    ensures i / p.Columns() == (i + 1) / p.Columns()
    ensures ItemAt(p, i + 1).slot.x - ItemAt(p, i).slot.x == CellW(p) + p.GapX()
  {
    NextInRow(i, p.Columns());
  }
}
