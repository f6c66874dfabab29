/**
 * Shapes shared by the layout generators (src/ui/layout/SlotLayoutGenerator.ts,
 * src/ui/layout/VocabLayoutGenerator.ts, src/ui/layout/randomDistribute.ts).
 * Coordinates are JS numbers, modelled as reals.
 */
module LayoutTypes {

  /** A rectangle. An area's (x, y) is its top-left corner; a slot's or picture's is its centre. */
  datatype Rect = Rect(x: real, y: real, w: real, h: real)

  datatype RowJustify = Left | Center | Right

  /** The row generator's answer: whether the block fits the area, and the slots (centre and size). */
  datatype SlotLayoutResult = SlotLayoutResult(fits: bool, slots: seq<Rect>)

  /** Where a vocabulary slot goes relative to its picture. */
  datatype SlotPlacement = Below | RightOf

  /** One grid cell of the vocabulary layout: a picture and its slot, both centre-based. */
  datatype PictureSlotLayout = PictureSlotLayout(picture: Rect, slot: Rect)

  datatype VocabLayoutResult = VocabLayoutResult(fits: bool, items: seq<PictureSlotLayout>)

  datatype Point = Point(x: real, y: real)
}
