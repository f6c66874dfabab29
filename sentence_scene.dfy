/**
 * The sentence puzzle screen (src/scenes/SentenceScene.ts): the slot list is split into rows at
 * "\n" items, the row layout places the slots, one slot spec is built per word (with the slot-0
 * capitalisation callbacks), the slots that start with a word get a card, and the answer is
 * scored by comparing occupant words with the expected sentence.
 */
module SentenceScene {
  import opened Wrappers
  import opened LayoutTypes
  import opened WordCards
  import opened SlotScreens
  import RowSlotLayout

  const RowBreak: string := "\n"
  const SentenceSnapRadius: real := 70.0
  const SentenceCardW: real := 110.0
  const SentenceCardH: real := 70.0

  /** The items that are words, not row breaks, in order. */
  function WordsOf(items: seq<string>): (words: seq<string>)
    ensures |words| <= |items|
    ensures RowBreak !in words
  {
    if items == [] then []
    else WordsOf(items[..|items| - 1]) + (if items[|items| - 1] == RowBreak then [] else [items[|items| - 1]])
  }

  /** The rows laid end to end. */
  function Flatten(rows: seq<seq<string>>): seq<string> {
    if rows == [] then [] else Flatten(rows[..|rows| - 1]) + rows[|rows| - 1]
  }

  lemma FlattenSnoc(rows: seq<seq<string>>, row: seq<string>)
    ensures Flatten(rows + [row]) == Flatten(rows) + row
  {
    assert (rows + [row])[..|rows|] == rows;
  }

  lemma FlattenTake(rows: seq<seq<string>>, r: nat)
    requires r < |rows|
    ensures Flatten(rows[..r + 1]) == Flatten(rows[..r]) + rows[r]
  {
    assert rows[..r + 1] == rows[..r] + [rows[r]];
    FlattenSnoc(rows[..r], rows[r]);
  }

  /** A row list whose rows are all empty flattens to nothing, and only such a list does. */
  lemma {:induction false} FlattenEmpty(rows: seq<seq<string>>)
    ensures Flatten(rows) == [] <==> forall r :: 0 <= r < |rows| ==> rows[r] == []
  {
    if rows != [] {
      FlattenEmpty(rows[..|rows| - 1]);
      assert forall r :: 0 <= r < |rows| - 1 ==> rows[..|rows| - 1][r] == rows[r];
    }
  }

  /** Items processed one at a time: the first i items' words. */
  lemma WordsOfStep(items: seq<string>, i: nat)
    requires i < |items|
    ensures WordsOf(items[..i + 1]) == WordsOf(items[..i]) + (if items[i] == RowBreak then [] else [items[i]])
  {
    assert items[..i + 1][..i] == items[..i];
  }

  /** The items cut at every row break, empty pieces included: n breaks give n + 1 pieces. */
  function Pieces(items: seq<string>): (ps: seq<seq<string>>)
    ensures |ps| >= 1
  {
    if items == [] then [[]]
    else
      var ps := Pieces(items[..|items| - 1]);
      var x := items[|items| - 1];
      if x == RowBreak then ps + [[]] else ps[..|ps| - 1] + [ps[|ps| - 1] + [x]]
  }

  /** The rows of a list that are not empty, in order. */
  function NonEmpty(rs: seq<seq<string>>): seq<seq<string>> {
    if rs == [] then []
    else NonEmpty(rs[..|rs| - 1]) + (if rs[|rs| - 1] == [] then [] else [rs[|rs| - 1]])
  }

  /** The rows the screen shows: the non-empty pieces, or one empty row when there are none. */
  function RowsRef(items: seq<string>): seq<seq<string>> {
    var rows := NonEmpty(Pieces(items));
    if rows == [] then [[]] else rows
  }

  /** The scan's rows after some items: the non-empty closed pieces, then the open piece as it is. */
  function ScanState(items: seq<string>): seq<seq<string>> {
    var ps := Pieces(items);
    NonEmpty(ps[..|ps| - 1]) + [ps[|ps| - 1]]
  }

  /** One more item moves the scan state as the loop body of the split does. */
  lemma ScanStateStep(items: seq<string>, i: nat)
    requires i < |items|
    ensures ScanState(items[..i + 1]) == Fed(ScanState(items[..i]), items[i])
  {
    var xs := items[..i];
    assert items[..i + 1] == xs + [items[i]];
    assert (xs + [items[i]])[..|xs|] == xs;
    if items[i] == RowBreak {
      ScanStateBreak(Pieces(xs));
    } else {
      ScanStateWord(Pieces(xs), items[i]);
    }
  }

  /** A row break closes the open piece: it joins the closed rows when it is not empty. */
  lemma ScanStateBreak(ps: seq<seq<string>>)
    requires |ps| >= 1
    ensures var rows := NonEmpty(ps[..|ps| - 1]) + [ps[|ps| - 1]];
            NonEmpty(ps) + [[]] == if |rows[|rows| - 1]| > 0 then rows + [[]] else rows
  {
    assert ps == ps[..|ps| - 1] + [ps[|ps| - 1]];
  }

  /** A word joins the open piece and leaves the closed rows alone. */
  lemma ScanStateWord(ps: seq<seq<string>>, w: string)
    requires |ps| >= 1
    ensures var rows := NonEmpty(ps[..|ps| - 1]) + [ps[|ps| - 1]];
            var next := ps[..|ps| - 1] + [ps[|ps| - 1] + [w]];
            NonEmpty(next[..|next| - 1]) + [next[|next| - 1]] == rows[..|rows| - 1] + [rows[|rows| - 1] + [w]]
  {
    var next := ps[..|ps| - 1] + [ps[|ps| - 1] + [w]];
    assert next[..|next| - 1] == ps[..|ps| - 1];
  }

  /** Dropping a trailing empty row from the final scan state gives the reference rows. */
  lemma ScanStateRows(items: seq<string>)
    ensures var rows := ScanState(items);
            RowsRef(items) == if |rows| > 1 && rows[|rows| - 1] == [] then rows[..|rows| - 1] else rows
  {
    var ps := Pieces(items);
    var last := |ps| - 1;
    assert ps == ps[..last] + [ps[last]];
    var rows := ScanState(items);
    assert rows[..|rows| - 1] == NonEmpty(ps[..last]);
  }

  /**
   * The row split of `create`: a "\n" closes the current row unless it is still empty, any other
   * item joins the current row, and a trailing empty row is dropped (a lone empty row is kept).
   * The result is the reference split: the non-empty pieces between row breaks, or one empty row.
   */
  method SplitRows(items: seq<string>) returns (rows: seq<seq<string>>)
    ensures rows == RowsRef(items)
    ensures |rows| >= 1
    ensures forall r :: 0 <= r < |rows| ==> RowBreak !in rows[r]
    ensures Flatten(rows) == WordsOf(items)
    ensures WordsOf(items) == [] ==> rows == [[]]
    ensures WordsOf(items) != [] ==> forall r :: 0 <= r < |rows| ==> rows[r] != []
    ensures RowBreak !in items ==> rows == [items]
  {
    rows := ScanItems(items);
    ScanStateRows(items);
    if |rows| > 1 && |rows[|rows| - 1]| == 0 {
      DropEmptyLast(rows);
      rows := rows[..|rows| - 1];
    }
    FlattenEmpty(rows);
  }

  /** The item loop of the split, before a trailing empty row is dropped. */
  method ScanItems(items: seq<string>) returns (rows: seq<seq<string>>)
    ensures rows == ScanState(items)
    ensures WellSplit(rows)
    ensures Flatten(rows) == WordsOf(items)
    ensures RowBreak !in items ==> rows == [items]
  {
    rows := [[]];
    for i := 0 to |items|
      invariant rows == ScanState(items[..i])
      invariant WellSplit(rows)
      invariant Flatten(rows) == WordsOf(items[..i])
      invariant RowBreak !in items[..i] ==> rows == [items[..i]]
    {
      ScanStep(items, i, rows);
      ScanStateStep(items, i);
      rows := Fed(rows, items[i]);
    }
    assert items[..|items|] == items;
  }

  /** One item of the split: a row break opens a new row unless the current one is empty; a word joins it. */
  function Fed(rows: seq<seq<string>>, item: string): seq<seq<string>>
    requires |rows| >= 1
  {
    if item == RowBreak then
      (if |rows[|rows| - 1]| > 0 then rows + [[]] else rows)
    else rows[..|rows| - 1] + [rows[|rows| - 1] + [item]]
  }

  lemma ScanStep(items: seq<string>, i: nat, rows: seq<seq<string>>)
    requires i < |items| && WellSplit(rows) && Flatten(rows) == WordsOf(items[..i])
    requires RowBreak !in items[..i] ==> rows == [items[..i]]
    ensures WellSplit(Fed(rows, items[i])) && Flatten(Fed(rows, items[i])) == WordsOf(items[..i + 1])
    ensures RowBreak !in items[..i + 1] ==> Fed(rows, items[i]) == [items[..i + 1]]
  {
    WordsOfStep(items, i);
    assert items[..i + 1] == items[..i] + [items[i]];
    if items[i] == RowBreak {
      FlattenSnoc(rows, []);
    } else {
      AppendWord(rows, items[i]);
    }
  }

  /** The split so far: at least one row, no row break inside a row, every row but the current one non-empty. */
  predicate WellSplit(rows: seq<seq<string>>) {
    |rows| >= 1 &&
    (forall r :: 0 <= r < |rows| ==> RowBreak !in rows[r]) &&
    (forall r :: 0 <= r < |rows| - 1 ==> rows[r] != [])
  }

  lemma AppendWord(rows: seq<seq<string>>, w: string)
    requires WellSplit(rows) && w != RowBreak
    ensures var next := rows[..|rows| - 1] + [rows[|rows| - 1] + [w]];
      WellSplit(next) && Flatten(next) == Flatten(rows) + [w]
  {
    var last := |rows| - 1;
    var next := rows[..last] + [rows[last] + [w]];
    assert rows == rows[..last] + [rows[last]];
    FlattenSnoc(rows[..last], rows[last]);
    FlattenSnoc(rows[..last], rows[last] + [w]);
    assert forall r :: 0 <= r < last ==> next[r] == rows[r];
  }

  lemma DropEmptyLast(rows: seq<seq<string>>)
    requires WellSplit(rows) && |rows| > 1 && rows[|rows| - 1] == []
    ensures WellSplit(rows[..|rows| - 1]) && Flatten(rows[..|rows| - 1]) == Flatten(rows)
    ensures rows[|rows| - 2] != []
  {
    var last := |rows| - 1;
    var init := rows[..last];
    assert rows == init + [rows[last]];
    FlattenSnoc(init, rows[last]);
    assert Flatten(init) + [] == Flatten(init);
    forall r | 0 <= r < |init| ensures init[r] == rows[r] {
    }
  }

  /** The row lengths handed to the row layout. */
  function Lengths(rows: seq<seq<string>>): (ns: seq<int>)
    ensures |ns| == |rows| && forall r :: 0 <= r < |rows| ==> ns[r] == |rows[r]|
  {
    seq(|rows|, r requires 0 <= r < |rows| => |rows[r]|)
  }

  /** The layout produces one slot per word: its count for the rows' lengths is the number of words. */
  lemma {:induction false} LayoutCountsWords(rows: seq<seq<string>>, k: nat)
    requires k <= |rows|
    ensures RowSlotLayout.SlotsBefore(Lengths(rows), k) == |Flatten(rows[..k])|
  {
    if k > 0 {
      LayoutCountsWords(rows, k - 1);
      FlattenTake(rows, k - 1);
    }
  }

  /** The row layout request of `create`: 110 x 70 cards, gaps 20 and 25, every row centred. */
  function SlotLayoutParams(rows: seq<seq<string>>, width: real, height: real): (p: RowSlotLayout.RowParams)
    ensures p.slotsPerRow == Lengths(rows) && p.cardW == SentenceCardW && p.cardH == SentenceCardH
    ensures p.GapX() == 20.0 && p.GapY() == 25.0 && forall r: nat :: p.JustifyAt(r) == Center
  {
    RowSlotLayout.RowParams(
      Lengths(rows), SentenceCardW, SentenceCardH,
      Rect(40.0, (height * 0.28).Floor as real, width - 80.0, (height * 0.30).Floor as real),
      [], Some(20.0), Some(25.0))
  }

  /** The spec of the slot at flat index k: the layout rectangle, the word, the slot-0 callbacks keyed by k. */
  function SpecAt(centers: seq<Rect>, words: seq<string>, k: nat): (s: SlotSpec)
    requires k < |centers| && k < |words|
    ensures s.x == centers[k].x && s.y == centers[k].y && s.w == centers[k].w && s.h == centers[k].h
    ensures s.initialWord == Some(words[k]) && s.callbacks == SentenceCallbacks(k)
  {
    SlotSpec(centers[k].x, centers[k].y, centers[k].w, centers[k].h, Some(words[k]), SentenceCallbacks(k))
  }

  /**
   * The spec loop of `create`: one spec per word, in row-major order, taking the layout's slot at the
   * running flat index. The layout always yields at least that many slots.
   */
  method BuildSpecs(rows: seq<seq<string>>, centers: seq<Rect>) returns (specs: seq<SlotSpec>)
    requires |centers| >= |Flatten(rows)|
    ensures |specs| == |Flatten(rows)|
    ensures forall k :: 0 <= k < |specs| ==> specs[k] == SpecAt(centers, Flatten(rows), k)
  {
    specs := [];
    var flatIndex := 0;
    for r := 0 to |rows|
      invariant flatIndex == |specs| == |Flatten(rows[..r])| <= |Flatten(rows)|
      invariant forall k :: 0 <= k < |specs| ==> specs[k] == SpecAt(centers, Flatten(rows), k)
    {
      FlattenTake(rows, r);
      var done := Flatten(rows[..r]);
      assert Flatten(rows)[..|Flatten(rows[..r + 1])|] == Flatten(rows[..r + 1]) by {
        FlattenIsPrefix(rows, r + 1);
      }
      for c := 0 to |rows[r]|
        invariant flatIndex == |specs| == |done| + c <= |Flatten(rows)|
        invariant forall k :: 0 <= k < |specs| ==> specs[k] == SpecAt(centers, Flatten(rows), k)
      {
        assert Flatten(rows)[flatIndex] == Flatten(rows[..r + 1])[flatIndex] == rows[r][c];
        var pos := centers[flatIndex];
        specs := specs + [SlotSpec(pos.x, pos.y, pos.w, pos.h, Some(rows[r][c]), SentenceCallbacks(flatIndex))];
        flatIndex := flatIndex + 1;
      }
    }
    assert rows[..|rows|] == rows;
  }

  /** The first r rows flatten to a prefix of all the words. */
  lemma {:induction false} FlattenIsPrefix(rows: seq<seq<string>>, r: nat)
    requires r <= |rows|
    ensures |Flatten(rows[..r])| <= |Flatten(rows)|
    ensures Flatten(rows)[..|Flatten(rows[..r])|] == Flatten(rows[..r])
    decreases |rows| - r
  {
    if r < |rows| {
      FlattenTake(rows, r);
      FlattenIsPrefix(rows, r + 1);
      var a, b := Flatten(rows[..r]), Flatten(rows[..r + 1]);
      assert b[..|a|] == a;
      assert Flatten(rows)[..|a|] == Flatten(rows)[..|b|][..|a|];
    } else {
      assert rows[..r] == rows;
    }
  }

  /** A slot that starts with a card: its initial word is present and not empty. */
  predicate HasInitialWord(spec: SlotSpec) {
    spec.initialWord.Some? && spec.initialWord.value != ""
  }

  /**
   * The initial-card loop of `create`: every slot whose initial word is not empty gets a new card
   * with that word, created at the slot's centre with the given draggable flag, and placed into it.
   * Runs on a fresh screen: no cards yet and every slot empty.
   */
  method PlaceInitialCards(screen: SlotScreen, movable: bool)
    requires screen.Valid() && screen.cards == []
    requires forall i :: 0 <= i < |screen.slots| ==> screen.slots[i].occupant.None?
    modifies screen
    ensures screen.Valid() && screen.Model().Symmetric()
    ensures |screen.slots| == old(|screen.slots|)
    ensures forall i :: 0 <= i < |screen.slots| ==> screen.slots[i].spec == old(screen.slots[i].spec)
    ensures forall i :: 0 <= i < |screen.slots| ==> (screen.slots[i].occupant.Some? <==> HasInitialWord(screen.slots[i].spec))
    ensures forall i :: 0 <= i < |screen.slots| && screen.slots[i].occupant.Some? ==>
      var v := screen.Model().cards[screen.slots[i].occupant.value];
      Some(v.word) == screen.slots[i].spec.initialWord && v.draggable == movable
    ensures forall k :: 0 <= k < |screen.cards| ==> screen.cards[k].slotIndex.Some?
  {
    ghost var specs := seq(|screen.slots|, i requires 0 <= i < |screen.slots| reads screen => screen.slots[i].spec);
    for i := 0 to |screen.slots|
      invariant screen.Valid() && screen.Model().Symmetric()
      invariant Seeded(screen.Model(), specs, i, movable)
    {
      ghost var before := screen.Model();
      var spec := screen.slots[i].spec;
      if HasInitialWord(spec) {
        PlaceOneInitialCard(screen, i, movable);
        SeededStep(before, screen.Model(), specs, i, movable);
      }
    }
  }

  /**
   * The loop state of the initial-card loop on the board: the slots keep their specs, the first n slots
   * hold a card exactly when their word is not empty, a card with that word and the draggable flag, the
   * rest are still empty, and every card is slotted.
   */
  ghost predicate Seeded(bd: Board, specs: seq<SlotSpec>, n: nat, movable: bool) {
    |bd.slots| == |specs| &&
    (forall j :: 0 <= j < |specs| ==> bd.slots[j].spec == specs[j]) &&
    (forall j :: 0 <= j < |specs| ==> (bd.slots[j].occupant.Some? <==> j < n && HasInitialWord(specs[j]))) &&
    (forall j :: 0 <= j < |specs| && bd.slots[j].occupant.Some? ==>
      bd.slots[j].occupant.value < |bd.cards| &&
      Some(bd.cards[bd.slots[j].occupant.value].word) == specs[j].initialWord &&
      bd.cards[bd.slots[j].occupant.value].draggable == movable) &&
    (forall k :: 0 <= k < |bd.cards| ==> bd.cards[k].slotIndex.Some?)
  }

  /** Seeding slot i with a new card (the last one) carries the loop state to i + 1. */
  lemma SeededStep(b0: Board, b1: Board, specs: seq<SlotSpec>, i: nat, movable: bool)
    requires Seeded(b0, specs, i, movable) && i < |specs| && HasInitialWord(specs[i])
    requires |b1.cards| == |b0.cards| + 1 && b1.cards[..|b0.cards|] == b0.cards
    requires b1.slots == b0.slots[i := b0.slots[i].(occupant := Some(|b0.cards|))]
    requires b1.cards[|b0.cards|].slotIndex.Some?
    requires Some(b1.cards[|b0.cards|].word) == specs[i].initialWord && b1.cards[|b0.cards|].draggable == movable
    ensures Seeded(b1, specs, i + 1, movable)
  {
    forall k | 0 <= k < |b0.cards| ensures b1.cards[k] == b0.cards[k] {
      assert b1.cards[..|b0.cards|][k] == b1.cards[k];
    }
  }

  /** One step of the initial-card loop: a card for slot i, pushed and placed. */
  method PlaceOneInitialCard(screen: SlotScreen, i: nat, movable: bool)
    requires screen.Valid() && screen.Model().Symmetric() && i < |screen.slots|
    requires HasInitialWord(screen.slots[i].spec) && screen.slots[i].occupant.None?
    modifies screen
    ensures screen.Valid() && screen.Model().Symmetric()
    ensures |screen.cards| == old(|screen.cards|) + 1 && screen.cards[..old(|screen.cards|)] == old(screen.cards)
    ensures fresh(screen.cards[old(|screen.cards|)])
    ensures screen.slots == old(screen.slots)[i := old(screen.slots)[i].(occupant := Some(old(|screen.cards|)))]
    ensures screen.Model().cards[..old(|screen.cards|)] == old(screen.Model().cards)
    ensures
      var v := screen.Model().cards[old(|screen.cards|)];
      Some(v.word) == old(screen.slots[i].spec.initialWord) && v.draggable == movable && v.slotIndex == Some(i)
  {
    var spec := screen.slots[i].spec;
    var card := new WordCard(spec.x, spec.y, spec.initialWord.value, None, None, Some(movable));
    screen.AddCard(card);
    ghost var added := screen.Model();
    var c := |screen.cards| - 1;
    FillKeepsSymmetric(added.Occupants(), added.CardSlots(), i, c);
    screen.PlaceCardInSlot(c, i);
    assert screen.Model().Occupants() == added.Occupants()[i := Some(c)];
    assert screen.Model().CardSlots() == added.CardSlots()[c := Some(i)];
  }

  /** The slot specs of a sentence: one per word, laid out in rows, showing the word and reporting its index. */
  method SentenceSpecs(items: seq<string>, width: real, height: real) returns (specs: seq<SlotSpec>)
    ensures |specs| == |WordsOf(items)|
    ensures forall i :: 0 <= i < |specs| ==>
      specs[i].initialWord == Some(WordsOf(items)[i]) && specs[i].callbacks == SentenceCallbacks(i)
  {
    var rows := SplitRows(items);
    var layout := RowSlotLayout.Generate(SlotLayoutParams(rows, width, height));
    assert |layout.slots| == |Flatten(rows)| by {
      LayoutCountsWords(rows, |rows|);
      assert rows[..|rows|] == rows;
    }
    specs := BuildSpecs(rows, layout.slots);
  }

  /**
   * The slot part of `create` on a fresh screen: split the items into rows, lay the rows out, build one
   * spec per word and the slots from them, then give every slot with a non-empty word its card.
   */
  method BuildSentenceSlots(screen: SlotScreen, items: seq<string>, width: real, height: real, movable: bool)
    requires screen.Valid() && screen.cards == []
    modifies screen
    ensures screen.Valid() && screen.Model().Symmetric()
    ensures |screen.slots| == |WordsOf(items)|
    ensures forall i :: 0 <= i < |screen.slots| ==>
      screen.slots[i].spec.initialWord == Some(WordsOf(items)[i]) && screen.slots[i].spec.callbacks == SentenceCallbacks(i)
    ensures forall i :: 0 <= i < |screen.slots| ==> (screen.slots[i].occupant.Some? <==> WordsOf(items)[i] != "")
    ensures forall i :: 0 <= i < |screen.slots| && screen.slots[i].occupant.Some? ==>
      var v := screen.Model().cards[screen.slots[i].occupant.value];
      v.word == WordsOf(items)[i] && v.draggable == movable
  {
    var specs := SentenceSpecs(items, width, height);
    screen.BuildSlots(specs);
    PlaceInitialCards(screen, movable);
  }

  /** `isCorrect`: the attempt is right exactly when it has the expected length and every word matches. */
  method IsCorrect(current: seq<string>, correct: seq<string>) returns (ok: bool)
    ensures ok <==> current == correct
  {
    if |current| != |correct| {
      return false;
    }
    for i := 0 to |current|
      invariant current[..i] == correct[..i]
    {
      if current[i] != correct[i] {
        return false;
      }
    }
    assert current == current[..|current|];
    assert correct == correct[..|correct|];
    return true;
  }

  /** The check button: the occupant words of the slots ("" for an empty slot) against the expected sentence. */
  method CheckAnswer(screen: SlotScreen, correct: seq<string>) returns (ok: bool)
    requires screen.Valid()
    ensures ok <==> (|screen.slots| == |correct| &&
      forall i :: 0 <= i < |correct| ==>
        correct[i] == (if screen.slots[i].occupant.Some? then screen.cards[screen.slots[i].occupant.value].word else ""))
  {
    var current := screen.OccupantWords();
    ok := IsCorrect(current, correct);
  }

  /** The removal line: 62% of the screen height, rounded down. */
  function RemovalThreshold(height: real): (t: real)
    ensures t <= height * 0.62 < t + 1.0
  {
    (height * 0.62).Floor as real
  }

  /** The top of the word bank: 65% of the height rounded down, or 120 below the lowest slot row if that is lower. */
  function BankTop(height: real, lastSlotRowY: real): (top: real)
    ensures top >= (height * 0.65).Floor as real && top >= lastSlotRowY + 120.0
    ensures top == (height * 0.65).Floor as real || top == lastSlotRowY + 120.0
  {
    var a := (height * 0.65).Floor as real;
    var b := lastSlotRowY + 120.0;
    if a >= b then a else b
  }

  /** The screen set-up of `create`: snap radius 70 and the removal line at 62% of the height. */
  method ConfigureScreen(screen: SlotScreen, height: real)
    modifies screen
    ensures screen.snapRadius == SentenceSnapRadius
    ensures screen.bottomAreaThresholdY == Some(RemovalThreshold(height))
    ensures screen.slots == old(screen.slots) && screen.cards == old(screen.cards)
  {
    screen.Configure(Some(SentenceSnapRadius), Some(RemovalThreshold(height)));
  }
}
