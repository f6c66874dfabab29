/**
 * A word card: the draggable token of the puzzle client (src/objects/WordCard.ts).
 * Its position is the top-left corner (x, y); the centre is derived from the size.
 * Tweens are modelled by their end point: snapping or returning home moves the card at once.
 */
module WordCards {
  import opened Wrappers

  const DefaultWidth: real := 100.0
  const DefaultHeight: real := 60.0
  const BaseFontSize: int := 28
  const MinFontSize: int := 16

  /** Font size of the label for a given display text: long texts shrink, others use the base size. */
  function FontSizeFor(text: string): (size: int)
    ensures |text| > 6 ==> MinFontSize <= size <= 24
    ensures |text| > 6 && |text| <= 11 ==> size == BaseFontSize - 2 * (|text| - 5)
    ensures |text| >= 11 ==> size == MinFontSize
    ensures |text| <= 6 ==> size == BaseFontSize
  {
    if |text| > 6 then
      var reduced := BaseFontSize - (|text| - 5) * 2;
      if reduced < MinFontSize then MinFontSize else reduced
    else BaseFontSize
  }

  /** Everything a card holds, as one value: used to state what an operation changes. */
  datatype CardView = CardView(
    word: string, width: real, height: real,
    x: real, y: real, homeX: real, homeY: real,
    slotIndex: Option<nat>, displayWord: string, fontSize: int,
    draggable: bool, dragOffX: real, dragOffY: real)
  {
    function CenterX(): real { x + width / 2.0 }
    function CenterY(): real { y + height / 2.0 }
  }

  /** The card after its label shows `text`. */
  function Displaying(v: CardView, text: string): (r: CardView)
    ensures r.displayWord == text && r.fontSize == FontSizeFor(text)
    ensures r.(displayWord := v.displayWord, fontSize := v.fontSize) == v
  {
    v.(displayWord := text, fontSize := FontSizeFor(text))
  }

  /** The card after its label is reset to its own word. */
  function Reset(v: CardView): (r: CardView)
    ensures r.displayWord == v.word && r.slotIndex == v.slotIndex
  {
    Displaying(v, v.word)
  }

  /** The card once a glide to centre (cx, cy) has ended. */
  function SnappedTo(v: CardView, cx: real, cy: real): (r: CardView)
    ensures r.CenterX() == cx && r.CenterY() == cy
    ensures r.(x := v.x, y := v.y) == v
  {
    v.(x := cx - v.width / 2.0, y := cy - v.height / 2.0)
  }

  /** The card once `returnHome` has run and its glide has ended. */
  function SentHome(v: CardView): (r: CardView)
    ensures r.slotIndex == None && r.displayWord == v.word
    ensures r.x == v.homeX && r.y == v.homeY
    ensures r.word == v.word && r.draggable == v.draggable && r.homeX == v.homeX && r.homeY == v.homeY
  {
    Reset(v).(slotIndex := None, x := v.homeX, y := v.homeY)
  }

  /**
   * The audio key played when the card is pressed: the registry entry for the word,
   * unless it is missing or empty (an empty key is falsy and plays nothing).
   */
  function PronunciationKey(registry: map<string, string>, word: string): (key: Option<string>)
    ensures key.Some? <==> word in registry && registry[word] != ""
    ensures key.Some? ==> key.value == registry[word]
  {
    if word in registry && registry[word] != "" then Some(registry[word]) else None
  }

  class WordCard {
    const word: string
    const cardWidth: real
    const cardHeight: real

    var x: real
    var y: real
    var homeX: real
    var homeY: real
    var slotIndex: Option<nat>
    var displayWord: string
    var fontSize: int
    var isDraggable: bool
    /** Grab offset recorded at drag start (cursor-to-centre); 0 until the first drag. */
    var dragOffX: real
    var dragOffY: real

    ghost function View(): CardView
      reads this
    {
      CardView(word, cardWidth, cardHeight, x, y, homeX, homeY,
               slotIndex, displayWord, fontSize, isDraggable, dragOffX, dragOffY)
    }

    function CenterX(): (cx: real)
      reads this
      ensures cx == View().CenterX()
    {
      x + cardWidth / 2.0
    }

    function CenterY(): (cy: real)
      reads this
      ensures cy == View().CenterY()
    {
      y + cardHeight / 2.0
    }

    constructor (centerX: real, centerY: real, w: string,
                 width: Option<real>, height: Option<real>, draggable: Option<bool>)
      ensures word == w && cardWidth == width.GetOr(DefaultWidth) && cardHeight == height.GetOr(DefaultHeight)
      ensures x == centerX - cardWidth / 2.0 && y == centerY - cardHeight / 2.0
      ensures CenterX() == centerX && CenterY() == centerY
      ensures homeX == x && homeY == y
      ensures slotIndex == None
      ensures displayWord == w && fontSize == FontSizeFor(w)
      ensures isDraggable == (draggable == Some(true))
      ensures dragOffX == 0.0 && dragOffY == 0.0
    {
      var cw := width.GetOr(DefaultWidth);
      var ch := height.GetOr(DefaultHeight);
      word := w;
      cardWidth := cw;
      cardHeight := ch;
      x := centerX - cw / 2.0;
      y := centerY - ch / 2.0;
      homeX := centerX - cw / 2.0;
      homeY := centerY - ch / 2.0;
      slotIndex := None;
      displayWord := w;
      fontSize := BaseFontSize;
      isDraggable := false;
      dragOffX := 0.0;
      dragOffY := 0.0;
      new;
      if |w| > 6 {
        fontSize := FontSizeFor(w);
      }
      if draggable == Some(true) {
        EnableDragging();
      }
    }

    method SetSlotIndex(newIndex: Option<nat>)
      modifies this
      ensures View() == old(View()).(slotIndex := newIndex)
    {
      slotIndex := newIndex;
    }

    method GetSlotIndex() returns (index: Option<nat>)
      ensures index == slotIndex
    {
      index := slotIndex;
    }

    method SetDisplayWord(text: string)
      modifies this
      ensures View() == Displaying(old(View()), text)
    {
      displayWord := text;
      if |text| > 6 {
        fontSize := FontSizeFor(displayWord);
      } else {
        fontSize := BaseFontSize;
      }
    }

    method ResetDisplayWord()
      modifies this
      ensures View() == Reset(old(View()))
    {
      SetDisplayWord(word);
    }

    method SetCenter(cx: real, cy: real)
      modifies this
      ensures View() == SnappedTo(old(View()), cx, cy)
      ensures CenterX() == cx && CenterY() == cy
    {
      x := cx - cardWidth / 2.0;
      y := cy - cardHeight / 2.0;
    }

    method EnableDragging()
      modifies this
      ensures View() == old(View()).(draggable := true)
    {
      isDraggable := true;
    }

    /** Glide to centre (cx, cy); the model lands there at once. */
    method SnapToCenter(cx: real, cy: real)
      modifies this
      ensures View() == SnappedTo(old(View()), cx, cy)
    {
      x := cx - cardWidth / 2.0;
      y := cy - cardHeight / 2.0;
    }

    method ReturnHome()
      modifies this
      ensures View() == SentHome(old(View()))
    {
      slotIndex := None;
      ResetDisplayWord();
      x := homeX;
      y := homeY;
    }
  }
}
