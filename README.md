# Drag-and-drop language puzzles: a Dafny model

This project models the core of a language-learning puzzle game. The game has two parts.

The browser client (TypeScript, Phaser) shows a sentence or a set of pictures as a row of slots, plus a bank of word cards. The learner drags cards into the slots.
- **Slot board** (`SlotScreens`): slots and cards point at each other. On release, a card stays where it is, returns home, snaps into the nearest empty slot within the snap radius, swaps with the occupant of a full slot, or is evicted when dropped below the removal line.
- **Word cards** (`WordCards`): card state and the font-size rule.
- **Layout generators**:
  - `RowSlotLayout`: rows of slots, each row justified left, right or centre.
  - `GridVocabLayout`: a picture-and-slot grid.
  - `RandomDistribute`: rejection-sampled scattering of points.
- **Screens**:
  - `SentenceScene`: splits the items into rows at line breaks, builds one slot per word, seeds the initial cards and scores the answer.
  - `VocabScene`: hands grid positions to the slots the targets name.
- **API helpers** (`SentenceApi`): absolute server URLs, the fallback UUID generator, and the per-tab player id.
- **Registries** (`PronunciationRegistry`, `ImageRegistry`): the pronunciation and image records, which are cleared and refilled in place.

The question server (Python, Flask) keeps a table of players.
- **Player table** (`QuestionServer`): each player holds the question sequence they selected. A cleanup that drops players not seen for thirty minutes exists, but it runs only inside `_ensure_player`, and no route calls `_ensure_player`.
- **Question sequences**:
  - `EnglQuestions`: English "to be" statements turned into a question and a short answer.
  - `EtreAvoirQuestions`: French être/avoir.
  - `VocabQuestions`: picture vocabulary.
  - The `QuestionData` payload they share is in `Questions`.
- **Romanian form generation**:
  - `MsdFormat` and `RoDictionary`: the MULTEXT-East morphosyntactic tag codec and the Romanian tag dictionary.
  - `WordInfo`: repairs treebank tags the dictionary rejects.
  - `Lexicons`: the word-form lexicon and its best-match search.
  - `VerbGrammar`: a feature-unification grammar of analytic verb forms.
  - `SyntheticForms` and `WordForms`: combine these into the forms of a word.

How the source becomes Dafny:
- **Objects the source updates in place** become classes with `modifies` frames: the slot board, the cards, the registries, the lexicon, the question sequences and the server's table.
- **Loops** become methods. Each is proved against a specification function of the inputs or the old state.
- **Pure computations** become functions with lemmas.
- **Coordinates** are `real`, and distances are compared by their squares.
- **Inputs**: randomness, the clock (`now`) and the page location are parameters.

`placeCardInSlot` (src/ui/slots/SlotScreen.ts:208-218) reads `this.slots[slotIndex]` with no range check, so an index outside the slot list would fail on the undefined slot. `SlotScreens.SlotScreen.PlaceCardInSlot` therefore requires an index inside the slot list. Like the code, it does not detach the card from its previous slot.

## Model

| member | source | states |
|---|---|---|
| ImageRegistry.Registry.constructor | src/images/imageRegistry.ts:1 | the image registry starts empty |
| ImageRegistry.Registry.SetImages | src/images/imageRegistry.ts:3-6 | after the call the registry holds exactly the given map: every old entry is gone, every new one present |
| PronunciationRegistry.KeysTable | src/audio/pronunciationRegistry.ts:10-12 | the table built from a server manifest has exactly the manifest's words, each mapped to its entry's audio key |
| PronunciationRegistry.Registry.constructor | src/audio/pronunciationRegistry.ts:5 | the pronunciation registry starts empty |
| PronunciationRegistry.Registry.SetPronunciations | src/audio/pronunciationRegistry.ts:7-13 | the registry is replaced, not merged: its words are exactly the manifest's and each maps to its key, so calling twice with one manifest is the same as once |
| WordCards.FontSizeFor | src/objects/WordCard.ts:66-125 | texts of up to six characters use the 28px base; from 7 to 11 characters the size is 28 - 2 * (length - 5), 24 down to 16; from 11 characters on it is 16px |
| WordCards.Displaying | src/objects/WordCard.ts:92-100 | showing a text changes only the displayed word and the font size, which becomes the size for that text |
| WordCards.Reset | src/objects/WordCard.ts:102-104 | resetting shows the card's own word again and leaves its slot unchanged |
| WordCards.SnappedTo | src/objects/WordCard.ts:113-153 | after a snap the card's centre is the target point and only its position changed |
| WordCards.SentHome | src/objects/WordCard.ts:155-165 | going home clears the slot, shows the card's own word, puts the card at its home position and keeps its word, home and draggability |
| WordCards.PronunciationKey | src/objects/WordCard.ts:77-80 | a press plays a sound exactly when the registry has a non-empty key for the card's word, and then plays that key |
| WordCards.WordCard.CenterX | src/objects/WordCard.ts:106-108 | the centre abscissa is the left edge plus half the width |
| WordCards.WordCard.CenterY | src/objects/WordCard.ts:109-111 | the centre ordinate is the top edge plus half the height |
| WordCards.WordCard.constructor | src/objects/WordCard.ts:30-81 | a new card is 100x60 unless sized otherwise, centred on the given point, at home there, in no slot, showing its word at the size for it, draggable only when asked |
| WordCards.WordCard.SetSlotIndex | src/objects/WordCard.ts:84-86 | only the slot index changes, to the given one |
| WordCards.WordCard.GetSlotIndex | src/objects/WordCard.ts:87-89 | returns the current slot index |
| WordCards.WordCard.SetDisplayWord | src/objects/WordCard.ts:92-100 | the card becomes Displaying of its old state with the text |
| WordCards.WordCard.ResetDisplayWord | src/objects/WordCard.ts:102-104 | the card becomes Reset of its old state |
| WordCards.WordCard.SetCenter | src/objects/WordCard.ts:113-116 | the card's centre becomes the given point and nothing else moves |
| WordCards.WordCard.EnableDragging | src/objects/WordCard.ts:137-143 | only the draggable flag changes, to true |
| WordCards.WordCard.SnapToCenter | src/objects/WordCard.ts:145-153 | at the end of the glide the card is centred on the given point |
| WordCards.WordCard.ReturnHome | src/objects/WordCard.ts:155-165 | at the end of the glide the card is SentHome of its old state |
| RandomDistribute.RandBetweenInSpan | src/ui/layout/randomDistribute.ts:21 | a draw with a source value in [0, 1) lies between the two bounds, whichever is larger |
| RandomDistribute.SampleInSpan | src/ui/layout/randomDistribute.ts:21-28 | any value drawn from a source yielding [0, 1) lies between the bounds |
| RandomDistribute.AppendKeepsSpread | src/ui/layout/randomDistribute.ts:30-35 | appending a candidate that passed the distance test keeps every pair of points at least minDist apart |
| RandomDistribute.CandidateInArea | src/ui/layout/randomDistribute.ts:27-28 | the candidate built from two source values in [0, 1), x from the first and y from the second, lies inside the area |
| RandomDistribute.DrawsInArea | src/ui/layout/randomDistribute.ts:27-28 | the candidate read at any source position lies inside the area when the source yields values in [0, 1) |
| RandomDistribute.AllDrawsInArea | src/ui/layout/randomDistribute.ts:26-28 | with a source yielding values in [0, 1), no candidate at any source position falls outside the area |
| RandomDistribute.FirstFitSpec | src/ui/layout/randomDistribute.ts:26-38 | the first fit is a try below maxTries whose candidate passes the distance test, every earlier try fails, and there is none exactly when every remaining try fails |
| RandomDistribute.ScatterPlaced | src/ui/layout/randomDistribute.ts:33-37 | a point placed at its first fitting try is appended and the next point starts its tries two source values after that try |
| RandomDistribute.ScatterGaveUp | src/ui/layout/randomDistribute.ts:40-43 | a point with no fitting try ends the scatter with the points placed so far, unfitted, after two source values per try |
| RandomDistribute.ScatterShape | src/ui/layout/randomDistribute.ts:19-46 | the scatter only appends to the list it starts from, adds at most n points, and reports fits exactly when all n were added |
| RandomDistribute.ScatterBudget | src/ui/layout/randomDistribute.ts:23-44 | the scatter reads at most two source values per try and maxTries tries per point |
| RandomDistribute.ScatterSpread | src/ui/layout/randomDistribute.ts:23-44 | the scatter keeps every pair of points at least minDist apart and, when every candidate is inside the area, every point inside it |
| RandomDistribute.ScatterNoTries | src/ui/layout/randomDistribute.ts:40-43 | with no tries allowed, the first point already gives up: no points and fits false |
| RandomDistribute.ScatterFromEmpty | src/ui/layout/randomDistribute.ts:7-47 | a scatter from an empty list places at most count points, pairwise at least minDist apart, inside the area for a unit source, reports fits exactly when all count were placed, places none when no try is allowed, and reads at most two source values per try |
| RandomDistribute.Distribute | src/ui/layout/randomDistribute.ts:7-47 | the result and the source position reached are exactly the scatter of count points (defaults minDist 120 and 40 tries) from an empty list, each point its first fitting try, the first point without one ending the run unfitted; hence the ScatterFromEmpty properties |
| RandomDistribute.TryPlace | src/ui/layout/randomDistribute.ts:24-38 | when some try passes, the result is the first passing try's candidate (x then y from the two values at used + 2t) and the position after it, all earlier tries failing; when none passes, no point after exactly 2 * maxTries values; a returned point is far from every placed point |
| RandomDistribute.AllFar | src/ui/layout/randomDistribute.ts:30-32 | the scan answers true exactly when the candidate is at least minDist from every placed point |
| GridVocabLayout.GridParams.Columns | src/ui/layout/SimpleGridVocabLayoutGenerator.ts:33-35 | the given column count, else 2 columns for up to four items and 3 beyond |
| GridVocabLayout.CeilDiv | src/ui/layout/SimpleGridVocabLayoutGenerator.ts:37 | the rounded-up quotient: q - 1 multiples of the divisor are short of a, q are enough |
| GridVocabLayout.Generate | src/ui/layout/SimpleGridVocabLayoutGenerator.ts:5-90 | the grid fits exactly when its total width and height fit the area; one item per index (none for a non-positive count), item i in cell (i / columns, i % columns) |
| GridVocabLayout.RowsHoldItems | src/ui/layout/SimpleGridVocabLayoutGenerator.ts:37 | the row count is the least that holds every item |
| GridVocabLayout.ItemCell | src/ui/layout/SimpleGridVocabLayoutGenerator.ts:57-62 | every item's row is below the row count and its column below the column count |
| GridVocabLayout.BelowPlacement | src/ui/layout/SimpleGridVocabLayoutGenerator.ts:64-74 | stacked: picture and slot share a centre x, and the slot sits half a picture, the gap and half a slot lower |
| GridVocabLayout.RightPlacement | src/ui/layout/SimpleGridVocabLayoutGenerator.ts:75-86 | side by side: picture and slot share a centre y, and the slot sits half a picture, the gap and half a slot further right |
| GridVocabLayout.ItemSizes | src/ui/layout/SimpleGridVocabLayoutGenerator.ts:72-84 | pictures and slots keep the sizes given |
| GridVocabLayout.GridCentred | src/ui/layout/SimpleGridVocabLayoutGenerator.ts:47-53 | the grid is centred: equal margins left and right, top and bottom |
| GridVocabLayout.ColumnStep | src/ui/layout/SimpleGridVocabLayoutGenerator.ts:58-61 | neighbours in a row are in the same row and one cell width plus gapX apart |
| RowSlotLayout.RowParams.JustifyAt | src/ui/layout/SimpleRowSlotLayoutGenerator.ts:18-20 | a row without a given justification is centred |
| RowSlotLayout.RowWidth | src/ui/layout/SimpleRowSlotLayoutGenerator.ts:25 | an empty or negative row is 0 wide; n cards are n card widths plus n - 1 gaps |
| RowSlotLayout.MaxRowWidth | src/ui/layout/SimpleRowSlotLayoutGenerator.ts:28 | the widest row, at least 0: no row is wider, and the result is 0 or some row's width |
| RowSlotLayout.RowSlots | src/ui/layout/SimpleRowSlotLayoutGenerator.ts:57-60 | a row has as many slots as its count (none for a count of 0 or less), slot c at SlotAt(r, c) |
| RowSlotLayout.SlotsUpTo | src/ui/layout/SimpleRowSlotLayoutGenerator.ts:37-61 | the first k rows produce exactly as many slots as their counts add up to |
| RowSlotLayout.SlotIndex | src/ui/layout/SimpleRowSlotLayoutGenerator.ts:37-61 | slots come out in row-major order: slot c of row r sits at the number of slots before row r plus c |
| RowSlotLayout.Generate | src/ui/layout/SimpleRowSlotLayoutGenerator.ts:5-64 | no rows fits with no slots; otherwise fits is the widest-row and height test, and the slots are every row's slots in order |
| RowSlotLayout.RowOf | src/ui/layout/SimpleRowSlotLayoutGenerator.ts:38-60 | the inner loop yields exactly row r's slots |
| RowSlotLayout.FitsIff | src/ui/layout/SimpleRowSlotLayoutGenerator.ts:25-30 | the widest-row test is the same as every row fitting the width (and the width not being negative) and the block fitting the height |
| RowSlotLayout.AdjacentSpacing | src/ui/layout/SimpleRowSlotLayoutGenerator.ts:55-59 | neighbouring slots are exactly cardW + gapX apart on one row |
| RowSlotLayout.RowSpacing | src/ui/layout/SimpleRowSlotLayoutGenerator.ts:35-55 | consecutive rows are cardH + gapY apart, empty rows included |
| RowSlotLayout.LeftJustified | src/ui/layout/SimpleRowSlotLayoutGenerator.ts:46-47 | a left row starts at the area's left edge |
| RowSlotLayout.RightJustified | src/ui/layout/SimpleRowSlotLayoutGenerator.ts:48-49 | a right row ends at the area's right edge |
| RowSlotLayout.CenterJustified | src/ui/layout/SimpleRowSlotLayoutGenerator.ts:50-53 | a centred row has equal margins on both sides |
| RowSlotLayout.ThreeCardExample | src/ui/layout/SimpleRowSlotLayoutGenerator.ts:5-64 | three 100x60 cards with default gaps in a 400x200 area fit, centred at x = 80, 200 and 320 and y = 100 |
| SentenceApi.ApiBase | src/api/sentenceApi.ts:4 | the base is the page's protocol, "//", its host name and port 5000 |
| SentenceApi.ToAbsoluteServerUrl | src/api/sentenceApi.ts:103-107 | http(s) URLs are kept; a rooted path is appended to the base; any other path is appended after a "/" |
| SentenceApi.AbsoluteEndsWithUrl | src/api/sentenceApi.ts:103-107 | the converted URL always ends with the URL given |
| SentenceApi.BaseIsAbsolute | src/api/sentenceApi.ts:4 | a page served over http or https gives an absolute base |
| SentenceApi.ToAbsoluteIdempotent | src/api/sentenceApi.ts:103-107 | with an absolute base, converting twice is converting once |
| SentenceApi.HexDigit | src/api/sentenceApi.ts:44 | a digit below 16 prints as one lower-case hex character |
| SentenceApi.Nibble | src/api/sentenceApi.ts:42 | a draw in [0, 1), times 16 and truncated, is a nibble 0..15 |
| SentenceApi.VariantNibble | src/api/sentenceApi.ts:43 | the variant digit keeps the two low bits and sets the top bit: 8 to 11 |
| SentenceApi.TemplateAt | src/api/sentenceApi.ts:41 | the template is 36 characters: dashes at 8, 13, 18 and 23, '4' at 14, 'y' at 19, 'x' elsewhere |
| SentenceApi.DrawsMonotone | src/api/sentenceApi.ts:41-45 | the draws used never decrease along the template |
| SentenceApi.PlaceholderRun | src/api/sentenceApi.ts:41-45 | a run of placeholders uses one draw per character |
| SentenceApi.TemplateDraws | src/api/sentenceApi.ts:41-45 | the template uses 31 draws, the 'y' the sixteenth |
| SentenceApi.GenerateUuid | src/api/sentenceApi.ts:34-46 | the fallback id has 36 characters, each the template character or, for a placeholder, the digit from its own draw |
| SentenceApi.UuidCharAt | src/api/sentenceApi.ts:41-45 | a placeholder character is filled from the draw numbered by the placeholders before it; other characters are kept |
| SentenceApi.DrawsBelow | src/api/sentenceApi.ts:41-45 | the draws up to any character stay within the 31 supplied |
| SentenceApi.UuidLayout | src/api/sentenceApi.ts:40-45 | the id has the version-4 layout of section 4.4 of RFC 4122: dashes at 8, 13, 18, 23, '4' at 14, a variant digit among 8, 9, a, b at 19, lower-case hex elsewhere |
| SentenceApi.SessionStorage.constructor | src/api/sentenceApi.ts:26 | the storage starts with the items given |
| SentenceApi.SessionStorage.GetItem | src/api/sentenceApi.ts:26 | the stored value for the key, or none |
| SentenceApi.SessionStorage.SetItem | src/api/sentenceApi.ts:29 | only the key's item changes, to the value |
| SentenceApi.TabPlayerId | src/api/sentenceApi.ts:24-32 | a stored non-empty id is reused; a missing or empty one is replaced by the fresh id |
| SentenceApi.GetTabPlayerId | src/api/sentenceApi.ts:24-32 | returns TabPlayerId of the old storage and leaves the id stored under "player_id" |
| SentenceApi.PlayerIdStable | src/api/sentenceApi.ts:24-32 | once an id is handed out, every later call returns it, whatever fresh id it would generate |
| SlotScreens.UpperChar | src/scenes/SentenceScene.ts:119 | a lower-case ASCII letter becomes its upper case; every other character is kept |
| SlotScreens.Capitalized | src/scenes/SentenceScene.ts:119 | same length; the first character upper-cased and the rest kept |
| SlotScreens.AfterOnPlace | src/scenes/SentenceScene.ts:116-121 | the first slot's onPlace shows the card's word capitalised; other slots' callbacks change nothing |
| SlotScreens.AfterOnRemove | src/scenes/SentenceScene.ts:122-126 | the first slot's onRemove shows the card's own word again; others change nothing |
| SlotScreens.Placed | src/ui/slots/SlotScreen.ts:208-218 | a placed card records the slot, is centred on it, and keeps its word, draggability and home |
| SlotScreens.Detached | src/ui/slots/SlotScreen.ts:129-141 | a removed card has no slot, shows its own word, and stays where it was |
| SlotScreens.PlacedIdempotent | src/ui/slots/SlotScreen.ts:208-218 | placing a card twice in one slot is placing it once |
| SlotScreens.NearestUpTo | src/ui/slots/SlotScreen.ts:156-166 | the scan returns -1 and infinity for no slot; otherwise the first slot at minimum distance, no farther than any slot and strictly nearer than every earlier one |
| SlotScreens.FindNearest | src/ui/slots/SlotScreen.ts:155-166 | the loop computes NearestUpTo over every slot: -1 exactly when there are no slots, else a slot no farther than any other |
| SlotScreens.DetachKeepsSymmetric | src/ui/slots/SlotScreen.ts:147-153 | detaching a slotted card from its slot keeps slot and card records in agreement |
| SlotScreens.FillKeepsSymmetric | src/ui/slots/SlotScreen.ts:177-179 | an unslotted card filling an empty slot keeps the records in agreement |
| SlotScreens.SwapKeepsSymmetric | src/ui/slots/SlotScreen.ts:191-199 | a swap into an empty previous slot keeps the records in agreement |
| SlotScreens.EvictKeepsSymmetric | src/ui/slots/SlotScreen.ts:191-205 | a swap that sends the other card home keeps the records in agreement |
| SlotScreens.CountOccupied | src/scenes/SentenceScene.ts:195-201 | the number of filled slots is at most the number of slots |
| SlotScreens.MaxSpecY | src/ui/slots/SlotScreen.ts:77 | the largest slot centre y, at least 0: no slot is lower, and the result is 0 or some slot's y |
| SlotScreens.NearestIgnoresOccupants | src/ui/slots/SlotScreen.ts:159-166 | the nearest-slot scan reads slot centres only, never occupants |
| SlotScreens.OccupancyAt | src/ui/slots/SlotScreen.ts:129-218 | on a consistent board, slot i holds card k exactly when card k records slot i |
| SlotScreens.SymmetricUnique | src/ui/slots/SlotScreen.ts:129-218 | on a consistent board no card fills two slots |
| SlotScreens.PlaceIn | src/ui/slots/SlotScreen.ts:208-218 | slot i records card c and card c records slot i and is centred on it; nothing else about occupancy changes |
| SlotScreens.PlaceInIdempotent | src/ui/slots/SlotScreen.ts:208-218 | placing again with the same card and slot changes nothing |
| SlotScreens.RemovedFrom | src/ui/slots/SlotScreen.ts:129-141 | the card loses its slot and stays where it is; on a consistent board its slot is emptied and the board stays consistent |
| SlotScreens.EvictedHome | src/ui/slots/SlotScreen.ts:203-205 | the evicted card loses its slot, shows its own word again and is back at its home position; every other card and every slot is unchanged, and the board stays valid with the same layout |
| SlotScreens.PutBack | src/ui/slots/SlotScreen.ts:168-187 | a drop that does not land leaves the board as it is when the card had no slot; otherwise the previous slot records the card, the card records that slot and is centred on it, and no other occupancy changes |
| SlotScreens.SwappedIn | src/ui/slots/SlotScreen.ts:190-205 | the swap half keeps the board's layout |
| SlotScreens.Landed | src/ui/slots/SlotScreen.ts:155-205 | the landing step keeps the board's layout |
| SlotScreens.LandedAt | src/ui/slots/SlotScreen.ts:174-205 | landing on a slot within reach keeps the board's layout |
| SlotScreens.Dropped | src/ui/slots/SlotScreen.ts:143-206 | a drop keeps the board's layout |
| SlotScreens.DetachFacts | src/ui/slots/SlotScreen.ts:147-166 | detaching keeps a consistent board consistent and does not change which slot is nearest |
| SlotScreens.DropOutOfReach | src/ui/slots/SlotScreen.ts:168-172 | out of reach: the occupants are unchanged and only the dropped card changes, back to its slot or left where dropped |
| SlotScreens.DropRejected | src/ui/slots/SlotScreen.ts:182-188 | onto a locked card: the occupants are unchanged and only the dropped card changes, back to its slot or left where dropped |
| SlotScreens.PutBackLanding | src/ui/slots/SlotScreen.ts:168-188 | an out-of-reach or rejected drop is a put-back after the detach |
| SlotScreens.PutBackResult | src/ui/slots/SlotScreen.ts:147-186 | detaching then putting back restores the occupants and changes only the dropped card |
| SlotScreens.DropIntoEmpty | src/ui/slots/SlotScreen.ts:176-180 | near an empty slot (or its own): the card takes it, its old slot is emptied, and only the dropped card changes |
| SlotScreens.IntoEmptyLanding | src/ui/slots/SlotScreen.ts:176-180 | such a drop is a placement after the detach |
| SlotScreens.IntoEmptyResult | src/ui/slots/SlotScreen.ts:147-178 | detaching then placing into an empty or own slot gives exactly those occupants and that card |
| SlotScreens.DropSwapped | src/ui/slots/SlotScreen.ts:190-205 | onto a draggable card: the dropped card takes the slot; the other card moves into the old slot, or loses its slot and goes home when there was none |
| SlotScreens.SwapLanding | src/ui/slots/SlotScreen.ts:190-205 | such a drop is the swap half after the detach; the target holds the other card, which differs from the dropped one |
| SlotScreens.SwapResult | src/ui/slots/SlotScreen.ts:147-205 | detaching then swapping trades the two cards' places, or sends the other home |
| SlotScreens.DropKeepsSymmetric | src/ui/slots/SlotScreen.ts:143-206 | every drop outcome keeps slot and card records in agreement |
| SlotScreens.DropCount | src/ui/slots/SlotScreen.ts:143-206 | a drop keeps the number of filled slots, except that a card from the bank landing in an empty slot adds one |
| SlotScreens.IntoEmptyCount | src/ui/slots/SlotScreen.ts:176-180 | landing in an empty slot adds a filled slot only for a card from the bank |
| SlotScreens.FillOccupiedCount | src/ui/slots/SlotScreen.ts:147-178 | moving a card into an empty or own slot adds one filled slot only when it had none |
| SlotScreens.SwappedCount | src/ui/slots/SlotScreen.ts:190-205 | a swap keeps the number of filled slots |
| SlotScreens.SwapOccupiedCount | src/ui/slots/SlotScreen.ts:190-205 | filling an occupied slot and the previous slot keeps the number of filled slots |
| SlotScreens.DragEnded | src/ui/slots/SlotScreen.ts:110-126 | the release handler keeps the board's layout |
| SlotScreens.DragEndEffect | src/ui/slots/SlotScreen.ts:110-126 | a slotted card released below the threshold empties its slot (one fewer filled) and stays where let go; any other release is a drop; the board stays consistent |
| SlotScreens.Grabbed | src/ui/slots/SlotScreen.ts:81-93 | grabbing does not move the card and changes nothing but the drag offset, which is what the cursor must be moved by to reach the card's centre |
| SlotScreens.DraggedTo | src/ui/slots/SlotScreen.ts:95-104 | while dragged the card's centre is the cursor plus the recorded offset |
| SlotScreens.GrabThenDrag | src/ui/slots/SlotScreen.ts:81-104 | after a grab, moving the cursor by (dx, dy) moves the card's centre by exactly (dx, dy) |
| SlotScreens.SeatCard | src/ui/slots/SlotScreen.ts:212-217 | the card becomes Placed in the slot |
| SlotScreens.SlotScreen.Views | src/ui/slots/SlotScreen.ts:39 | every card's state, by card id |
| SlotScreens.SlotScreen.OccupantWords | src/scenes/SentenceScene.ts:195-201 | each slot's occupant's word, "" for an empty slot |
| SlotScreens.SlotScreen.constructor | src/ui/slots/SlotScreen.ts:38-45 | no slots and no cards, snap radius 70, no threshold, last row y 0 |
| SlotScreens.SlotScreen.Configure | src/ui/slots/SlotScreen.ts:47-50 | given values replace the current ones; missing ones keep them |
| SlotScreens.SlotScreen.BuildSlots | src/ui/slots/SlotScreen.ts:52-78 | one empty slot per spec, in order, and the last row y is the largest spec y |
| SlotScreens.SlotScreen.AddCard | src/scenes/SentenceScene.ts:148-175 | the card is appended and keeps the board consistent |
| SlotScreens.SlotScreen.PlaceCardInSlot | src/ui/slots/SlotScreen.ts:208-218 | the board becomes PlaceIn of the old board |
| SlotScreens.SlotScreen.DetachCard | src/ui/slots/SlotScreen.ts:137-140 | only the card changes, to Detached |
| SlotScreens.SlotScreen.RemoveFromSlot | src/ui/slots/SlotScreen.ts:129-141 | the board becomes RemovedFrom of the old board |
| SlotScreens.SlotScreen.SendHome | src/ui/slots/SlotScreen.ts:203-205 | the board becomes EvictedHome of the old board |
| SlotScreens.SlotScreen.TrySnapOrSwap | src/ui/slots/SlotScreen.ts:143-206 | the board becomes Dropped of the old board with the snap radius |
| SlotScreens.SlotScreen.Land | src/ui/slots/SlotScreen.ts:155-205 | the board becomes Landed of the old board |
| SlotScreens.SlotScreen.LandAt | src/ui/slots/SlotScreen.ts:174-205 | the board becomes LandedAt of the old board |
| SlotScreens.SlotScreen.PutBackCard | src/ui/slots/SlotScreen.ts:170-186 | the board becomes PutBack of the old board |
| SlotScreens.SlotScreen.SwapWith | src/ui/slots/SlotScreen.ts:190-205 | the board becomes SwappedIn of the old board |
| SlotScreens.SlotScreen.DragEnd | src/ui/slots/SlotScreen.ts:110-126 | the board becomes DragEnded of the old board |
| SlotScreens.SlotScreen.DragStart | src/ui/slots/SlotScreen.ts:81-93 | only the card changes, to Grabbed |
| SlotScreens.SlotScreen.Drag | src/ui/slots/SlotScreen.ts:95-104 | only the card changes, to DraggedTo |
| SentenceScene.WordsOf | src/scenes/SentenceScene.ts:44-50 | the items that are not row breaks, never longer than the items and never containing a break |
| SentenceScene.FlattenEmpty | src/scenes/SentenceScene.ts:43-51 | rows flatten to nothing exactly when every row is empty |
| SentenceScene.WordsOfStep | src/scenes/SentenceScene.ts:44-50 | one more item adds itself to the words unless it is a row break |
| SentenceScene.SplitRows | src/scenes/SentenceScene.ts:42-51 | the rows are exactly the reference split: the non-empty pieces between "\n" items, in order, or one empty row when there are none; so at least one row and no break inside a row; the rows laid end to end are the words; no words gives one empty row, otherwise no row is empty; items without breaks form one row |
| SentenceScene.ScanItems | src/scenes/SentenceScene.ts:43-50 | the item loop ends with the non-empty closed pieces followed by the open last piece as it is; it keeps the split well formed and its rows laid end to end are the words |
| SentenceScene.ScanStateStep | src/scenes/SentenceScene.ts:44-50 | one more item moves the closed-pieces-plus-open-piece state exactly as the loop body does |
| SentenceScene.ScanStateBreak | src/scenes/SentenceScene.ts:45-47 | a row break closes the open piece, which joins the closed rows only when it is not empty |
| SentenceScene.ScanStateWord | src/scenes/SentenceScene.ts:48-49 | a word joins the open piece and leaves the closed rows unchanged |
| SentenceScene.ScanStateRows | src/scenes/SentenceScene.ts:51 | dropping a trailing empty row, when more than one row is left, turns the loop's final state into the reference split |
| SentenceScene.ScanStep | src/scenes/SentenceScene.ts:44-50 | one item keeps the split well formed and extends the words by that item's word |
| SentenceScene.AppendWord | src/scenes/SentenceScene.ts:49 | a word joining the current row keeps the split well formed and extends the words |
| SentenceScene.DropEmptyLast | src/scenes/SentenceScene.ts:51 | dropping a trailing empty row keeps the split well formed and the words unchanged |
| SentenceScene.Lengths | src/scenes/SentenceScene.ts:53 | one count per row, each the row's length |
| SentenceScene.LayoutCountsWords | src/scenes/SentenceScene.ts:53-104 | the row layout makes exactly one slot per word of the rows |
| SentenceScene.SlotLayoutParams | src/scenes/SentenceScene.ts:73-91 | 110x70 cards, gaps 20 and 25, the row lengths, and every row centred |
| SentenceScene.SpecAt | src/scenes/SentenceScene.ts:103-128 | the spec at flat index k has the layout rectangle k, the word k as its initial word, and callbacks for index k |
| SentenceScene.BuildSpecs | src/scenes/SentenceScene.ts:97-132 | one spec per word in row-major order, spec k built from the layout's slot k |
| SentenceScene.FlattenIsPrefix | src/scenes/SentenceScene.ts:99-132 | the words of the first rows are a prefix of all the words |
| SentenceScene.PlaceInitialCards | src/scenes/SentenceScene.ts:136-150 | every slot with a non-empty initial word, and only those, gets a card with that word and the given draggability; slot specs are unchanged; the board stays consistent |
| SentenceScene.SeededStep | src/scenes/SentenceScene.ts:137-150 | seeding one more slot carries the loop state forward |
| SentenceScene.PlaceOneInitialCard | src/scenes/SentenceScene.ts:141-149 | one new card for slot i is appended and placed there with the slot's word and the given draggability |
| SentenceScene.SentenceSpecs | src/scenes/SentenceScene.ts:42-132 | one spec per word of the items, spec i showing word i and reporting index i |
| SentenceScene.BuildSentenceSlots | src/scenes/SentenceScene.ts:42-150 | one slot per word; a slot holds a card exactly when its word is not empty, that card shows the word with the given draggability; the board is consistent |
| SentenceScene.IsCorrect | src/scenes/SentenceScene.ts:200-207 | the attempt is right exactly when it equals the expected words, length included |
| SentenceScene.CheckAnswer | src/scenes/SentenceScene.ts:193-207 | the check button reports success exactly when the slots' words ("" for empty) are the expected sentence |
| SentenceScene.RemovalThreshold | src/scenes/SentenceScene.ts:38 | the removal line is 62% of the height rounded down |
| SentenceScene.BankTop | src/scenes/SentenceScene.ts:153 | the bank starts at the lower of 65% of the height (rounded down) and 120 below the last slot row |
| SentenceScene.ConfigureScreen | src/scenes/SentenceScene.ts:37-40 | snap radius 70 and the removal line at 62% of the height; slots and cards unchanged |
| VocabScene.Unpositioned | src/scenes/VocabScene.ts:72-77 | a slot before positioning sits at (-9999, -9999) and is 140x70 |
| VocabScene.FromItem | src/scenes/VocabScene.ts:100-105 | a target's slot takes the layout item's slot rectangle, with no word and no callbacks |
| VocabScene.LastTarget | src/scenes/VocabScene.ts:80-107 | the last target with a layout item that names slot s, if any: no later such target names s; none means no such target names s |
| VocabScene.AssignSlots | src/scenes/VocabScene.ts:72-107 | slotCount specs, each the rectangle of the last target naming it, else unpositioned |
| VocabScene.FallbackSpot | src/scenes/VocabScene.ts:111-114 | an unpositioned slot is centred across the screen and stacked 60 below the grid, one slot height plus 10 per index; only its position changes |
| VocabScene.PlaceUnpositioned | src/scenes/VocabScene.ts:109-115 | every spec still at the sentinel x moves to its fallback spot; every other spec is unchanged |
| VocabScene.GridRequest | src/scenes/VocabScene.ts:55-68 | one cell per target, 3 columns, slots below the pictures, gaps 14, 30 and 40, 140x70 slots |
| VocabScene.BuildVocabSlots | src/scenes/VocabScene.ts:41-117 | slotCount empty slots; a slot named by a target gets the last such target's rectangle (or the fallback spot if that is at the sentinel); every other slot gets its fallback spot |
| VocabScene.VocabRemovalThreshold | src/scenes/VocabScene.ts:29 | the removal line is 70% of the height rounded down |
| VocabScene.ConfigureVocabScreen | src/scenes/VocabScene.ts:28-31 | snap radius 75 and the removal line at 70% of the height; slots and cards unchanged |
| MsdFormat.LastSymbol | server/ro_form_gen/msd_format.py:14 | the last entry with the symbol, or -1: a dict lookup where later entries win |
| MsdFormat.LastValue | server/ro_form_gen/msd_format.py:53 | the last entry with the value name, or -1: the inverted dict where later entries win |
| MsdFormat.SymbolThenValue | server/ro_form_gen/msd_format.py:53-82 | in a dict, the symbol found for a value name decodes back to that name |
| MsdFormat.ValueThenSymbol | server/ro_form_gen/msd_format.py:53-82 | with distinct value names, a decoded value encodes back to its symbol |
| MsdFormat.Overlaid | server/ro_form_gen/msd_format.py:31 | one entry per left entry, in order, with the left entry's key and the right operand's value name where the right operand has that key, else the left one |
| MsdFormat.ConcatLookup | server/ro_form_gen/msd_format.py:31 | lookup in a concatenation: present if in either part, the later part wins |
| MsdFormat.OverlaidLookup | server/ro_form_gen/msd_format.py:31 | overlaying keeps the left keys and takes the right value where both have the key |
| MsdFormat.NewEntriesLookup | server/ro_form_gen/msd_format.py:31 | the appended entries are exactly the right operand's keys the left lacks |
| MsdFormat.UnionLookup | server/ro_form_gen/msd_format.py:31 | `a \| b`: a key of either is present; a key of b has b's value, any other a's |
| MsdFormat.FeatureErrorFrom | server/ro_form_gen/msd_format.py:18-23 | the feature check raises nothing exactly when every key is one character and, when there are keys, the default is one of them |
| MsdFormat.Keyed | server/ro_form_gen/msd_format.py:19-21 | a checked table keeps its entries in order, each key as its character |
| MsdFormat.KeyedValid | server/ro_form_gen/msd_format.py:18-23 | a table that passed validation gives a valid feature |
| MsdFormat.NewFeature | server/ro_form_gen/msd_format.py:11-23 | the feature is built exactly when every key is one character and the default is a key (if there are keys), with the given name, default, flag and table |
| MsdFormat.NewClass | server/ro_form_gen/msd_format.py:37-44 | the class is built exactly when the category is one character long |
| MsdFormat.NotEarlier | server/ro_form_gen/msd_format.py:58-59 | with distinct names, a feature's name is not among the names before it |
| MsdFormat.RStrip | server/ro_form_gen/msd_format.py:63 | a prefix of the tag not ending in '-', and only '-' was removed |
| MsdFormat.ValueDict.constructor | server/ro_form_gen/msd_format.py:46-47 | the caller's dict holds the items given |
| MsdFormat.EncodeErrorSticks | server/ro_form_gen/msd_format.py:54-55 | once the encoder raises, nothing further happens |
| MsdFormat.EncodeTag | server/ro_form_gen/msd_format.py:46-63 | the result is TagFromFeatures of the dict passed, and the dict afterwards is the one the loop leaves, pops included |
| MsdFormat.EncodePops | server/ro_form_gen/msd_format.py:58-59 | with removal the dict loses exactly the names of the features encoded so far; without it the dict is unchanged |
| MsdFormat.EncodeStepChar | server/ro_form_gen/msd_format.py:49-62 | one iteration raises exactly when the present value is unknown, else appends the expected character |
| MsdFormat.EncodeChars | server/ro_form_gen/msd_format.py:49-62 | encoding raises exactly when some present feature's value is unknown; otherwise the body has one expected character per feature |
| MsdFormat.DecodeUpTo | server/ro_form_gen/msd_format.py:74-82 | a decoded dict always holds "category", which is the class's when no feature is so named |
| MsdFormat.FeaturesFromTag | server/ro_form_gen/msd_format.py:65-83 | a decoded dict always holds "category", which is the class's when no feature is so named |
| MsdFormat.DecodeErrorSticks | server/ro_form_gen/msd_format.py:80-81 | once the decoder raises, nothing further happens |
| MsdFormat.DecodeErrorIff | server/ro_form_gen/msd_format.py:75-82 | decoding raises exactly when some position holds a symbol its feature does not know |
| MsdFormat.DecodeBody | server/ro_form_gen/msd_format.py:74-83 | the zip loop computes DecodeUpTo over the whole body |
| MsdFormat.DecodeTag | server/ro_form_gen/msd_format.py:65-83 | the method computes FeaturesFromTag: bad-tag substitution, category and length checks, then the zip |
| MsdFormat.TagShape | server/ro_form_gen/msd_format.py:46-63 | encoding raises exactly when a present value is unknown; otherwise the tag starts with the category and position k + 1 holds feature k's expected character |
| MsdFormat.RStripHead | server/ro_form_gen/msd_format.py:63 | stripping leaves alone a head that does not end in '-' |
| MsdFormat.RStripDashes | server/ro_form_gen/msd_format.py:63 | stripping a word followed only by dashes gives the word |
| MsdFormat.DecodePrefix | server/ro_form_gen/msd_format.py:75 | decoding the first n positions reads only those positions |
| MsdFormat.DecodeDashes | server/ro_form_gen/msd_format.py:76-77 | positions holding '-' change nothing |
| MsdFormat.Restrict | server/ro_form_gen/msd_format.py:74-83 | the entries of the dict whose keys are among the names |
| MsdFormat.DecodeAbsent | server/ro_form_gen/msd_format.py:76-79 | reading the '-' of an absent or unused feature leaves the decoded entries as they were |
| MsdFormat.DecodePresent | server/ro_form_gen/msd_format.py:80-82 | reading a present feature's symbol adds that feature's entry |
| MsdFormat.DecodeEncoded | server/ro_form_gen/msd_format.py:46-83 | decoding a body written from a dict gives back the dict's entries for the features read so far |
| MsdFormat.FeaturesRoundTrip | server/ro_form_gen/msd_format.py:46-83 | dict to tag to dict: for a codec class and an encodable dict, the tag (unless listed as bad) decodes to the category plus the dict's entries for the class's features |
| MsdFormat.DecodeWritten | server/ro_form_gen/msd_format.py:63-83 | a tag written from expected characters, stripped, decodes to the dict's entries |
| MsdFormat.DecodedEntries | server/ro_form_gen/msd_format.py:74-82 | after decoding an allowed body the dict holds exactly the features read with a symbol, with the values they stand for |
| MsdFormat.ExpectedFromDecoded | server/ro_form_gen/msd_format.py:46-83 | the decoded dict makes every feature write back the symbol it was read from, and '-' past the body |
| MsdFormat.TagRoundTrip | server/ro_form_gen/msd_format.py:46-83 | tag to dict to tag: a tag the class writes, unless listed as bad, decodes to a dict that encodes back to the same tag |
| MsdFormat.DecodeCanonical | server/ro_form_gen/msd_format.py:65-83 | such a tag decodes without error, by its body alone |
| MsdFormat.UnlistedTag | server/ro_form_gen/msd_format.py:66-75 | a tag not listed as bad, with the class's category and not too long, is decoded by its body |
| MsdFormat.EncodeDecoded | server/ro_form_gen/msd_format.py:46-83 | the dict decoded from an allowed body without trailing '-' encodes back to the category and that body |
| MsdFormat.NewDictionary | server/ro_form_gen/msd_format.py:85-88 | each class is filed under its own category, and the keys are exactly the categories |
| MsdFormat.LaterClassWins | server/ro_form_gen/msd_format.py:88 | a class that no later class shares a category with is the one filed |
| MsdFormat.DictFeaturesFromTag | server/ro_form_gen/msd_format.py:91-96 | an empty tag raises; an unknown category gives None; otherwise the class's decoding, error included |
| MsdFormat.DictTagFromFeatures | server/ro_form_gen/msd_format.py:98-102 | None exactly when "category" is missing or unknown; otherwise the class's encoding, error included |
| MsdFormat.DictEncodeTag | server/ro_form_gen/msd_format.py:98-102 | the method computes DictTagFromFeatures; the dict is popped as the class encoder does, or left alone when no class is found |
| MsdFormat.DictionaryRoundTrip | server/ro_form_gen/msd_format.py:85-102 | through the dictionary, an encodable dict becomes a tag that decodes (unless listed as bad) to its entries for the class plus the category |
| RoDictionary.CaseAllTable | server/ro_form_gen/msd_format.py:31 | the combined case table is the two-case table followed by Nom, Gen, Dat and Acc: the two tables share only 'v', with the same value name |
| RoDictionary.CaseOverlaid | server/ro_form_gen/msd_format.py:31 | overlaying the four-case table on the two-case one keeps the two-case entries |
| RoDictionary.CaseNewEntries | server/ro_form_gen/msd_format.py:31 | the four-case entries the two-case table lacks are all but 'v', in order |
| RoDictionary.PersonCodec | server/ro_form_gen/msd_format.py:25 | the Person feature passes its check, has distinct symbols and value names, and no '-' symbol |
| RoDictionary.NumberCodec | server/ro_form_gen/msd_format.py:26 | the Number feature passes its check, has distinct symbols and value names, and no '-' symbol |
| RoDictionary.GenderCodec | server/ro_form_gen/msd_format.py:27 | the Gender feature passes its check, has distinct symbols and value names, and no '-' symbol |
| RoDictionary.YesNoCodec | server/ro_form_gen/msd_format.py:9-34 | the Definiteness and Clitic feature passes its check, has distinct symbols and value names, and no '-' symbol |
| RoDictionary.Case2Codec | server/ro_form_gen/msd_format.py:29 | the two-case feature passes its check, has distinct symbols and value names, and no '-' symbol |
| RoDictionary.CaseAllCodec | server/ro_form_gen/msd_format.py:31 | the combined case feature passes its check, has distinct symbols and value names, and no '-' symbol |
| RoDictionary.DegreeCodec | server/ro_form_gen/msd_format.py:32 | the Degree feature passes its check, has distinct symbols and value names, and no '-' symbol |
| RoDictionary.VerbTypeCodec | server/ro_form_gen/msd_format.py:107 | the verb Type feature passes its check, has distinct symbols and value names, and no '-' symbol |
| RoDictionary.VerbMoodCodec | server/ro_form_gen/msd_format.py:108 | the Mood feature passes its check, has distinct symbols and value names, and no '-' symbol |
| RoDictionary.VerbTenseCodec | server/ro_form_gen/msd_format.py:109 | the Tense feature passes its check, has distinct symbols and value names, and no '-' symbol |
| RoDictionary.AdjectiveTypeCodec | server/ro_form_gen/msd_format.py:117 | the adjective Type feature passes its check, has distinct symbols and value names, and no '-' symbol |
| RoDictionary.NounTypeCodec | server/ro_form_gen/msd_format.py:127 | the noun Type feature passes its check, has distinct symbols and value names, and no '-' symbol |
| RoDictionary.ParticleTypeCodec | server/ro_form_gen/msd_format.py:136 | the particle Type feature passes its check, has distinct symbols and value names, and no '-' symbol |
| RoDictionary.NumeralTypeCodec | server/ro_form_gen/msd_format.py:141 | the numeral Type feature passes its check, has distinct symbols and value names, and no '-' symbol |
| RoDictionary.NumeralFormCodec | server/ro_form_gen/msd_format.py:145 | the numeral Form feature passes its check, has distinct symbols and value names, and no '-' symbol |
| RoDictionary.DeterminerTypeCodec | server/ro_form_gen/msd_format.py:152 | the determiner Type feature passes its check, has distinct symbols and value names, and no '-' symbol |
| RoDictionary.OwnerNumberCodec | server/ro_form_gen/msd_format.py:157-177 | the Owner_Number feature passes its check, has distinct symbols and value names, and no '-' symbol |
| RoDictionary.ModificTypeCodec | server/ro_form_gen/msd_format.py:159 | the Modific_Type feature passes its check, has distinct symbols and value names, and no '-' symbol |
| RoDictionary.ArticleTypeCodec | server/ro_form_gen/msd_format.py:163 | the article Type feature passes its check, has distinct symbols and value names, and no '-' symbol |
| RoDictionary.PronounTypeCodec | server/ro_form_gen/msd_format.py:171-172 | the pronoun Type feature passes its check, has distinct symbols and value names, and no '-' symbol |
| RoDictionary.PronounFormCodec | server/ro_form_gen/msd_format.py:181 | the Pronoun_Form feature passes its check, has distinct symbols and value names, and no '-' symbol |
| RoDictionary.PronounTypeValues | server/ro_form_gen/msd_format.py:171-172 | the seven pronoun types have seven different value names |
| RoDictionary.CodecFromParts | server/ro_form_gen/msd_format.py:37-44 | a one-character category other than '-', codec features and distinct names other than "category" make a codec class |
| RoDictionary.VerbsFeatures | server/ro_form_gen/msd_format.py:106-114 | every feature of the verb class is a codec feature |
| RoDictionary.VerbsNames | server/ro_form_gen/msd_format.py:106-114 | the verb class's feature names are distinct and none is "category" |
| RoDictionary.VerbsCodec | server/ro_form_gen/msd_format.py:106-114 | the verb class is a codec class, so tags and dicts round-trip through it |
| RoDictionary.AdjectivesFeatures | server/ro_form_gen/msd_format.py:116-124 | every feature of the adjective class is a codec feature |
| RoDictionary.AdjectivesNames | server/ro_form_gen/msd_format.py:116-124 | the adjective class's feature names are distinct and none is "category" |
| RoDictionary.AdjectivesCodec | server/ro_form_gen/msd_format.py:116-124 | the adjective class is a codec class, so tags and dicts round-trip through it |
| RoDictionary.NounsFeatures | server/ro_form_gen/msd_format.py:126-133 | every feature of the noun class is a codec feature |
| RoDictionary.NounsNames | server/ro_form_gen/msd_format.py:126-133 | the noun class's feature names are distinct and none is "category" |
| RoDictionary.NounsCodec | server/ro_form_gen/msd_format.py:126-133 | the noun class is a codec class, so tags and dicts round-trip through it |
| RoDictionary.ParticlesFeatures | server/ro_form_gen/msd_format.py:135-138 | every feature of the particle class is a codec feature |
| RoDictionary.ParticlesNames | server/ro_form_gen/msd_format.py:135-138 | the particle class's feature names are distinct and none is "category" |
| RoDictionary.ParticlesCodec | server/ro_form_gen/msd_format.py:135-138 | the particle class is a codec class, so tags and dicts round-trip through it |
| RoDictionary.NumeralsFeatures | server/ro_form_gen/msd_format.py:140-149 | every feature of the numeral class is a codec feature |
| RoDictionary.NumeralsNames | server/ro_form_gen/msd_format.py:140-149 | the numeral class's feature names are distinct and none is "category" |
| RoDictionary.NumeralsCodec | server/ro_form_gen/msd_format.py:140-149 | the numeral class is a codec class, so tags and dicts round-trip through it |
| RoDictionary.DeterminersFeatures | server/ro_form_gen/msd_format.py:151-160 | every feature of the determiner class is a codec feature |
| RoDictionary.DeterminersNames | server/ro_form_gen/msd_format.py:151-160 | the determiner class's feature names are distinct and none is "category" |
| RoDictionary.DeterminersCodec | server/ro_form_gen/msd_format.py:151-160 | the determiner class is a codec class, so tags and dicts round-trip through it |
| RoDictionary.ArticlesFeatures | server/ro_form_gen/msd_format.py:162-168 | every feature of the article class is a codec feature |
| RoDictionary.ArticlesNames | server/ro_form_gen/msd_format.py:162-168 | the article class's feature names are distinct and none is "category" |
| RoDictionary.ArticlesCodec | server/ro_form_gen/msd_format.py:162-168 | the article class is a codec class, so tags and dicts round-trip through it |
| RoDictionary.PronounsFeatures | server/ro_form_gen/msd_format.py:170-182 | every feature of the pronoun class is a codec feature |
| RoDictionary.PronounsNames | server/ro_form_gen/msd_format.py:170-182 | the pronoun class's feature names are distinct and none is "category" |
| RoDictionary.PronounsCodec | server/ro_form_gen/msd_format.py:170-182 | the pronoun class is a codec class, so tags and dicts round-trip through it |
| RoDictionary.RoDictionaryClasses | server/ro_form_gen/msd_format.py:184-187 | the eight categories are distinct: each class is filed under its own category and nothing else is filed |
| RoDictionary.RoDictionaryCodec | server/ro_form_gen/msd_format.py:105-187 | every class of the Romanian dictionary is a codec class filed under its category, so the dictionary round trips hold |
| RoDictionary.RoLookup | server/ro_form_gen/msd_format.py:184-187 | A, N, V, Q, M, D, T and P name the adjective, noun, verb, particle, numeral, determiner, article and pronoun classes |
| WordInfo.Reversed | server/ro_form_gen/word_info_extractor.py:44 | `[::-1]`: the same length, character j is character \|s\| - 1 - j |
| WordInfo.FirstDoubleDash | server/ro_form_gen/word_info_extractor.py:44 | the first "--" at or after i, or none when there is none |
| WordInfo.RepairDeterminerTag | server/ro_form_gen/word_info_extractor.py:42-44 | an empty tag raises (`xpos[0]`); a tag that is not a ten-character determiner tag is kept |
| WordInfo.ReversedTwice | server/ro_form_gen/word_info_extractor.py:44 | reversing twice gives the tag back |
| WordInfo.CollapseSpec | server/ro_form_gen/word_info_extractor.py:44 | without a "--" the tag is unchanged; otherwise the dash at the start of the rightmost "--" is dropped and everything else is kept |
| WordInfo.ReversedDoubleDash | server/ro_form_gen/word_info_extractor.py:44 | a "--" at j in the reversed tag is a "--" at \|x\| - 2 - j in the tag |
| WordInfo.CollapseNone | server/ro_form_gen/word_info_extractor.py:44 | a tag without "--" is unchanged |
| WordInfo.CollapseAt | server/ro_form_gen/word_info_extractor.py:44 | the rightmost "--" at p collapses to one dash |
| WordInfo.DroppedDash | server/ro_form_gen/word_info_extractor.py:44 | collapsing the mirrored "--" drops the dash at p |
| WordInfo.RepairLength | server/ro_form_gen/word_info_extractor.py:43-44 | a ten-character determiner tag with a "--" becomes nine characters long; without one it is unchanged |
| WordInfo.LastDoubleDash | server/ro_form_gen/word_info_extractor.py:44 | the rightmost "--" at or after a known one |
| WordInfo.DictOf | server/ro_form_gen/word_info_extractor.py:109-147 | every key of the dict literal maps to a value listed with it |
| WordInfo.CanonicalAccepted | server/ro_form_gen/word_info_extractor.py:45 | a tag a dictionary class writes decodes through the dictionary |
| WordInfo.VerbsRejects | server/ro_form_gen/word_info_extractor.py:45 | a V tag the verb class rejects is rejected by the dictionary |
| WordInfo.VerbsAccepts | server/ro_form_gen/word_info_extractor.py:45 | a V tag the verb class writes is accepted by the dictionary |
| WordInfo.ParticlesRejects | server/ro_form_gen/word_info_extractor.py:45 | a Q tag the particle class rejects is rejected by the dictionary |
| WordInfo.ParticlesAccepts | server/ro_form_gen/word_info_extractor.py:45 | a Q tag the particle class writes is accepted |
| WordInfo.DeterminersRejects | server/ro_form_gen/word_info_extractor.py:45 | a D tag the determiner class rejects is rejected by the dictionary |
| WordInfo.DeterminersAccepts | server/ro_form_gen/word_info_extractor.py:45 | a D tag the determiner class writes is accepted |
| WordInfo.NounsRejects | server/ro_form_gen/word_info_extractor.py:45 | an N tag the noun class rejects is rejected by the dictionary |
| WordInfo.NounsAccepts | server/ro_form_gen/word_info_extractor.py:45 | an N tag the noun class writes is accepted |
| WordInfo.BadTagEntries0To8 | server/ro_form_gen/word_info_extractor.py:110-118 | each of these entries lists a tag the dictionary rejects, with a replacement of the same category that it accepts |
| WordInfo.BadTagEntries9To17 | server/ro_form_gen/word_info_extractor.py:119-127 | the same for entries 9 to 17 |
| WordInfo.BadTagEntries18To27 | server/ro_form_gen/word_info_extractor.py:128-137 | the same for entries 18 to 27 |
| WordInfo.BadTagEntries28To36 | server/ro_form_gen/word_info_extractor.py:138-146 | the same for entries 28 to 36 |
| WordInfo.BadTagEntriesRepair | server/ro_form_gen/word_info_extractor.py:109-147 | every entry of the bad-tag table replaces a tag the dictionary rejects by one it accepts, keeping the category letter |
| WordInfo.RepairWith | server/ro_form_gen/msd_format.py:66-95 | with a repair table, a listed tag with a good replacement decodes as its replacement, without error |
| WordInfo.BadTagDictRepairs | server/ro_form_gen/word_info_extractor.py:109-147 | every tag the table lists raises on its own, yet decodes through the table to what its replacement decodes to |
| Lexicons.Agreements | server/ro_form_gen/lexicon.py:10-12 | at most one agreement per position compared |
| Lexicons.XposTagMatches | server/ro_form_gen/lexicon.py:8-17 | the loop returns the score of the two tags: 0 at a clash, otherwise the number of agreeing specified positions |
| Lexicons.AgreementsSymmetric | server/ro_form_gen/lexicon.py:10-14 | agreement counts do not depend on which tag comes first |
| Lexicons.TagScoreSymmetric | server/ro_form_gen/lexicon.py:8-17 | the score is symmetric and never exceeds the shorter tag's length |
| Lexicons.SelfAgreements | server/ro_form_gen/lexicon.py:10-12 | a tag agrees with itself exactly at its specified positions |
| Lexicons.SelfScore | server/ro_form_gen/lexicon.py:8-17 | a tag scores its number of specified positions against itself |
| Lexicons.Slice | server/ro_form_gen/lexicon.py:31 | a Python slice is never longer than the string |
| Lexicons.NewEntry | server/ro_form_gen/lexicon.py:19-32 | the given fields are kept; the negation flag is raised exactly for a given flag or a negated-looking form |
| Lexicons.NextTab | server/ro_form_gen/lexicon.py:37 | the next tab at or after i, with no tab before it |
| Lexicons.SplitTabs | server/ro_form_gen/lexicon.py:37 | at least one field, and no field holds a tab |
| Lexicons.SplitJoin | server/ro_form_gen/lexicon.py:37 | the fields joined with tabs give the line back |
| Lexicons.FromLine | server/ro_form_gen/lexicon.py:35-43 | fewer than three fields raise; otherwise "=" stands for the form, an empty form, lemma or tag raises, and the entry holds the first three fields with count 0 and the negation flag of its form and lemma |
| Lexicons.FromLineFields | server/ro_form_gen/lexicon.py:38-43 | a parsed entry has no empty field and no "=" lemma unless its form is "=" |
| Lexicons.WithKey | server/ro_form_gen/lexicon.py:60-65 | the elements with one key value are no more than the elements |
| Lexicons.SortBy | server/ro_form_gen/lexicon.py:60-65 | sorting is a permutation |
| Lexicons.InsertFront | server/ro_form_gen/lexicon.py:60-65 | inserting adds exactly the one element |
| Lexicons.InsertFrontSorted | server/ro_form_gen/lexicon.py:60-65 | inserting into a sorted list keeps it sorted and adds only x |
| Lexicons.InsertFrontWithKey | server/ro_form_gen/lexicon.py:60-65 | inserting puts x in front of the elements with its key |
| Lexicons.SortBySpec | server/ro_form_gen/lexicon.py:60-65 | Python's sort: ordered by key, a permutation, and stable among equal keys |
| Lexicons.SortBySorted | server/ro_form_gen/lexicon.py:60-65 | the sort is ordered by key |
| Lexicons.SortByStable | server/ro_form_gen/lexicon.py:60-65 | the sort keeps the input order among equal keys |
| Lexicons.Append | server/ro_form_gen/lexicon.py:53-54 | appending to a default dict adds the position at the end of the key's list, creating it when missing |
| Lexicons.AppendWellFormed | server/ro_form_gen/lexicon.py:53-54 | appending keeps the keys distinct and in step with the dictionary |
| Lexicons.SortIndex | server/ro_form_gen/lexicon.py:60-65 | the keys are kept, and every list becomes a sorted permutation of itself |
| Lexicons.FormIds | server/ro_form_gen/lexicon.py:53 | the positions of a form are arena positions |
| Lexicons.LemmaIds | server/ro_form_gen/lexicon.py:54 | the positions of a lemma and tag are arena positions |
| Lexicons.FormIdsCount | server/ro_form_gen/lexicon.py:53 | each entry with the form is listed once, and no other entry |
| Lexicons.LemmaIdsCount | server/ro_form_gen/lexicon.py:54 | each entry with the lemma and tag is listed once, and no other entry |
| Lexicons.AddToLemmas | server/ro_form_gen/lexicon.py:54 | the nested default dict gains the entry's lemma, whose tag index gets the position appended; other lemmas are unchanged |
| Lexicons.FormCountAt | server/ro_form_gen/lexicon.py:53 | an indexed form list counts each entry with its form once |
| Lexicons.TagCountAt | server/ro_form_gen/lexicon.py:54 | an indexed tag list counts each entry with its lemma and tag once |
| Lexicons.NoFormIds | server/ro_form_gen/lexicon.py:53 | a form no entry has lists no position |
| Lexicons.NoLemmaIds | server/ro_form_gen/lexicon.py:54 | a lemma and tag no entry has list no position |
| Lexicons.FormIndexSpec | server/ro_form_gen/lexicon.py:52-53 | after n entries each form seen maps to its positions in arena order, and keys stay distinct |
| Lexicons.FormIndexStep | server/ro_form_gen/lexicon.py:52-53 | one more entry keeps the form index equal to the positions seen |
| Lexicons.FormIndexLists | server/ro_form_gen/lexicon.py:53 | appending the next entry's position extends the right form list |
| Lexicons.TagsStep | server/ro_form_gen/lexicon.py:54 | one more entry of a lemma keeps its tag index equal to the positions seen |
| Lexicons.TagsLists | server/ro_form_gen/lexicon.py:54 | appending the next entry's position extends the right tag list |
| Lexicons.LemmaIndexSpec | server/ro_form_gen/lexicon.py:52-54 | after n entries each lemma seen maps to its tags and their positions |
| Lexicons.LemmaListsStep | server/ro_form_gen/lexicon.py:54 | one more entry keeps every lemma's tag lists equal to the positions seen |
| Lexicons.OwnLemmaStep | server/ro_form_gen/lexicon.py:54 | the entry's own lemma gets the position under its tag |
| Lexicons.LemmasSeenStep | server/ro_form_gen/lexicon.py:54 | every lemma seen so far has a key |
| Lexicons.FormIdsSame | server/ro_form_gen/lexicon.py:53 | form positions depend only on the forms |
| Lexicons.LemmaIdsSame | server/ro_form_gen/lexicon.py:54 | lemma and tag positions depend only on lemmas and tags |
| Lexicons.IndexedSameKeys | server/ro_form_gen/lexicon.py:77-78 | entries that differ only in their counts are indexed by the same indexes |
| Lexicons.Where | server/ro_form_gen/lexicon.py:72-74 | a filter keeps only listed positions whose entries it accepts |
| Lexicons.WhereCount | server/ro_form_gen/lexicon.py:72-74 | filtering keeps every occurrence of a kept entry and drops the others |
| Lexicons.WhereSorted | server/ro_form_gen/lexicon.py:72-74 | filtering keeps the order |
| Lexicons.FlattenMember | server/ro_form_gen/lexicon.py:119-120 | a position is in the concatenation exactly when some key's list holds it |
| Lexicons.FlattenInRange | server/ro_form_gen/lexicon.py:82-84 | the concatenation lists only arena positions |
| Lexicons.CountsStep | server/ro_form_gen/lexicon.py:82-84 | concatenating one more form's list counts that form's entries once too |
| Lexicons.FormListCounts | server/ro_form_gen/lexicon.py:82-84 | a form's list counts exactly its entries |
| Lexicons.FlattenPrefixCount | server/ro_form_gen/lexicon.py:82-84 | over the first k form keys, each entry with one of those forms occurs once |
| Lexicons.FlattenCount | server/ro_form_gen/lexicon.py:81-84 | the form index lists every arena position exactly once |
| Lexicons.EntriesAt | server/ro_form_gen/lexicon.py:83 | the entries at the positions, in order |
| Lexicons.Scored | server/ro_form_gen/lexicon.py:115 | each tag of the index paired with its score against the requested tag, in key order |
| Lexicons.Positive | server/ro_form_gen/lexicon.py:116 | exactly the scored tags with a positive score |
| Lexicons.Names | server/ro_form_gen/lexicon.py:119 | the tag names, in order |
| Lexicons.RankedInIndex | server/ro_form_gen/lexicon.py:114-119 | every ranked tag is a key of the index |
| Lexicons.Selection | server/ro_form_gen/lexicon.py:118-122 | the selected positions are arena positions |
| Lexicons.FormsOf | server/ro_form_gen/lexicon.py:123 | the forms at the positions, in order |
| Lexicons.TagsInRange | server/ro_form_gen/lexicon.py:54 | a lemma's tag index lists only arena positions |
| Lexicons.ListedEntry | server/ro_form_gen/lexicon.py:54 | a position listed under a lemma and tag is an entry with that lemma and tag |
| Lexicons.RankedScored | server/ro_form_gen/lexicon.py:115-117 | a ranked tag is a key, scored by the tag match, above zero |
| Lexicons.SelectedGathered | server/ro_form_gen/lexicon.py:121-122 | a selected position was gathered, and the filter keeps it |
| Lexicons.GatheredListed | server/ro_form_gen/lexicon.py:119-120 | a gathered position is listed under a ranked tag |
| Lexicons.SelectionSound | server/ro_form_gen/lexicon.py:110-123 | every selected entry has the lemma, a tag scoring above zero against the request, and passes the filter |
| Lexicons.ListedGathered | server/ro_form_gen/lexicon.py:115-120 | a position listed under a tag scoring above zero is gathered |
| Lexicons.GatheredSelected | server/ro_form_gen/lexicon.py:121-122 | a gathered position the filter keeps is selected |
| Lexicons.SelectionComplete | server/ro_form_gen/lexicon.py:110-123 | every entry of the lemma whose tag scores above zero and that the filter keeps is selected |
| Lexicons.RankAt | server/ro_form_gen/lexicon.py:117 | a position under a scored tag carries that tag's rank |
| Lexicons.FlattenRanked | server/ro_form_gen/lexicon.py:117-120 | concatenating rank-sorted tags' lists gives positions ordered by rank |
| Lexicons.RankedTagsScored | server/ro_form_gen/lexicon.py:115-117 | each ranked tag is a key and carries its own score |
| Lexicons.TagsListedUnder | server/ro_form_gen/lexicon.py:54 | each position in a tag index is listed under its own entry's tag |
| Lexicons.GatheredRanked | server/ro_form_gen/lexicon.py:117-120 | the gathered positions come tag by tag in rank order |
| Lexicons.SelectionRanked | server/ro_form_gen/lexicon.py:117-123 | the forms returned are sorted by `RankKey`, 100 times Python's sort key; for tags under 100 characters that means higher scores first and, among equal scores, shorter tags first |
| Lexicons.SortLemmas | server/ro_form_gen/lexicon.py:63-65 | every lemma's tag index is sorted, and no lemma is added or lost |
| Lexicons.Lexicon.constructor | server/ro_form_gen/lexicon.py:49-58 | each entry is listed once under its form and once under its lemma and tag, and every list is sorted stably by decreasing count |
| Lexicons.Lexicon.SortLists | server/ro_form_gen/lexicon.py:60-65 | both indexes keep listing the entries, each list sorted stably by decreasing count |
| Lexicons.Lexicon.AddCount | server/ro_form_gen/lexicon.py:67-79 | every entry of the form, narrowed by a non-empty lemma and tag, gains one use and no other changes; the result says whether any was selected |
| Lexicons.Lexicon.CountEach | server/ro_form_gen/lexicon.py:77-78 | each listed entry gains one use per listing; the indexes are unchanged |
| Lexicons.Lexicon.IterEntries | server/ro_form_gen/lexicon.py:81-84 | the entries list by list in key order, each entry exactly once |
| Lexicons.Lexicon.LemmaXposToForm | server/ro_form_gen/lexicon.py:110-123 | none exactly when no entry has the lemma; otherwise the forms of the selection, which the Selection lemmas characterise |
| Lexicons.ScoreTags | server/ro_form_gen/lexicon.py:115 | the loop pairs each tag with its score |
| Lexicons.Gather | server/ro_form_gen/lexicon.py:118-120 | the loop concatenates the lists of the ranked tags |
| Lexicons.Counted | server/ro_form_gen/lexicon.py:67-79 | each entry gains one use exactly when it is selected |
| Lexicons.CountedNone | server/ro_form_gen/lexicon.py:75-76 | when nothing is selected no entry changes |
| Lexicons.BumpedIndexed | server/ro_form_gen/lexicon.py:77-78 | counting keeps both indexes valid |
| Lexicons.Bumped | server/ro_form_gen/lexicon.py:77-78 | each entry gains one use per listing of its position |
| Lexicons.Increment | server/ro_form_gen/lexicon.py:77-78 | the loop gives each listed entry one more use per listing |
| Lexicons.BumpedStep | server/ro_form_gen/lexicon.py:77-78 | one more listing adds one use at its position |
| Lexicons.IncrementSelected | server/ro_form_gen/lexicon.py:72-78 | incrementing at the selected positions is the counted lexicon |
| Lexicons.FormListInRange | server/ro_form_gen/lexicon.py:68 | a form's list holds arena positions |
| Lexicons.FormListsInRange | server/ro_form_gen/lexicon.py:82-84 | every form list and their concatenation hold arena positions |
| Lexicons.NoneSelected | server/ro_form_gen/lexicon.py:68-70 | a form without entries selects nothing and changes nothing |
| Lexicons.SelectedCount | server/ro_form_gen/lexicon.py:68-74 | the narrowed list holds each selected entry once and nothing else |
| Lexicons.NoneListed | server/ro_form_gen/lexicon.py:75-76 | an empty narrowed list means nothing is selected |
| Lexicons.SomeListed | server/ro_form_gen/lexicon.py:75-79 | a non-empty narrowed list means some entry is selected |
| Lexicons.LemmaKeys | server/ro_form_gen/lexicon.py:112-113 | a lemma has a key exactly when some entry has it |
| Lexicons.Positions | server/ro_form_gen/lexicon.py:52 | the positions 0 to n - 1 |
| Lexicons.PositionsCount | server/ro_form_gen/lexicon.py:52 | each position below n occurs once |
| Lexicons.RemoveAt | server/ro_form_gen/lexicon.py:83 | removing an element removes one occurrence |
| Lexicons.EntriesAtRemove | server/ro_form_gen/lexicon.py:83 | removing a position removes its entry once |
| Lexicons.EntriesAtPermutation | server/ro_form_gen/lexicon.py:83 | reordered positions give reordered entries |
| Lexicons.AllEntriesAt | server/ro_form_gen/lexicon.py:81-84 | positions holding each arena position once give every entry once |
| Lexicons.BuildIndexes | server/ro_form_gen/lexicon.py:50-54 | the loop builds both indexes, listing exactly the entries |
| Lexicons.FirstForm | server/ro_form_gen/lexicon.py:53 | the first position with the form, or the end |
| Lexicons.KeysByFirstFormStep | server/ro_form_gen/lexicon.py:53 | a new form key keeps the keys in order of first appearance |
| Lexicons.FormKeysOrdered | server/ro_form_gen/lexicon.py:53-56 | form keys come in order of first appearance |
| Lexicons.FormUnseen | server/ro_form_gen/lexicon.py:53 | a form without a key is the form of no entry seen |
| Lexicons.FormIndexBuilt | server/ro_form_gen/lexicon.py:52-53 | the built form index lists exactly the entries |
| Lexicons.TagsBuilt | server/ro_form_gen/lexicon.py:54 | each built tag index lists exactly its entries |
| Lexicons.LemmaIndexBuilt | server/ro_form_gen/lexicon.py:52-54 | the built lemma index lists exactly the entries |
| Lexicons.SortedFormIndexed | server/ro_form_gen/lexicon.py:61-62 | sorting keeps the form index exact and orders it by the key |
| Lexicons.SortedTagsIndexed | server/ro_form_gen/lexicon.py:64-65 | sorting keeps a tag index exact and orders it by the key |
| Lexicons.SortedLemmaIndexed | server/ro_form_gen/lexicon.py:63-65 | sorting keeps the lemma index exact and orders it by the key |
| Lexicons.FormsConstructed | server/ro_form_gen/lexicon.py:49-62 | a key for each form present, in order of first appearance, listing that form's entries sorted stably by decreasing count |
| Lexicons.LemmasConstructed | server/ro_form_gen/lexicon.py:49-65 | a key for each lemma present, and under it a tag for each of its tags, listing those entries sorted stably by decreasing count |
| VerbGrammar.Strings | server/ro_form_gen/verbform_grammar.py:12 | a dict of strings, as constructor input, with the same keys |
| VerbGrammar.Sets | server/ro_form_gen/verbform_grammar.py:12 | a token's own sets, as constructor input, with the same keys |
| VerbGrammar.NewToken | server/ro_form_gen/verbform_grammar.py:12-17 | falsy values are dropped, a string becomes its singleton, a set is kept; no feature holds an empty set |
| VerbGrammar.NewTokenOfToken | server/ro_form_gen/verbform_grammar.py:12-17 | rebuilding a token from its own sets gives it back |
| VerbGrammar.StringTokenSingleValued | server/ro_form_gen/verbform_grammar.py:12-17 | a token built from strings holds one value per feature, for exactly its non-empty strings |
| VerbGrammar.MatchesOwnFeatures | server/ro_form_gen/verbform_grammar.py:18-26 | a token matches the features it was built from |
| VerbGrammar.MatchesExtended | server/ro_form_gen/verbform_grammar.py:18-26 | extra entries in the other dict never break a match |
| VerbGrammar.ApplyAgreeValues | server/ro_form_gen/verbform_grammar.py:28-33 | only features marked with the agreement marker that the caller supplies take the caller's value (dropped when it is empty); nothing is added and every other feature is kept |
| VerbGrammar.ApplyValues | server/ro_form_gen/verbform_grammar.py:35-42 | none exactly when a supplied value is not admitted by a fixed feature; otherwise every supplied feature takes its value, empty values are dropped, and the rest is kept |
| VerbGrammar.AgreeKeepsSingleValued | server/ro_form_gen/verbform_grammar.py:28-33 | agreement keeps a single-valued token single-valued |
| VerbGrammar.FirstMerge | server/ro_form_gen/verbform_grammar.py:59-63 | the first merge entry whose key holds exactly the given values, or none when there is none |
| VerbGrammar.Sole | server/ro_form_gen/verbform_grammar.py:56 | the one element of a one-element set |
| VerbGrammar.SingledSpec | server/ro_form_gen/verbform_grammar.py:44-67 | fails exactly when some feature holds several values and no merge key has exactly that set; otherwise every feature keeps its key and takes its sole value or a matching merge value |
| VerbGrammar.SingledWithoutMerge | server/ro_form_gen/verbform_grammar.py:44-67 | without merge entries, exactly the single-valued tokens can be made single |
| VerbGrammar.ToSingleValue | server/ro_form_gen/verbform_grammar.py:44-67 | the loop computes the single values, or none when it fails |
| VerbGrammar.ValueDictMatches | server/ro_form_gen/verbform_grammar.py:72-81 | none exactly when a fixed requirement shares no value with a present input feature; otherwise the input's values for exactly the agreeing requirements it supplies |
| VerbGrammar.RuleGenerate | server/ro_form_gen/verbform_grammar.py:89-93 | none exactly when the head rejects the values; otherwise one token per expansion atom, in order, with the values agreed in |
| VerbGrammar.UnionOfKeys | server/ro_form_gen/verbform_grammar.py:101-107 | a feature is in the union exactly when some match has it |
| VerbGrammar.UnionOfValues | server/ro_form_gen/verbform_grammar.py:101-107 | a feature of the union holds exactly the values the matches give it |
| VerbGrammar.MatchAll | server/ro_form_gen/verbform_grammar.py:98-100 | none exactly when some atom fails; otherwise each atom's match, position by position |
| VerbGrammar.SequenceMatchSpec | server/ro_form_gen/verbform_grammar.py:95-108 | fails exactly when the lengths differ or some atom is contradicted; on success each feature holds exactly the values the agreeing atoms collected |
| VerbGrammar.Union | server/ro_form_gen/verbform_grammar.py:101-107 | the loop folds the matches into their union |
| VerbGrammar.MatchAllPointwise | server/ro_form_gen/verbform_grammar.py:98 | matching each atom in turn is the pointwise match |
| VerbGrammar.RuleSequenceMatches | server/ro_form_gen/verbform_grammar.py:95-108 | the method computes the sequence match |
| VerbGrammar.Heads | server/ro_form_gen/verbform_grammar.py:118 | each rule's head name, in order |
| VerbGrammar.Dedup | server/ro_form_gen/verbform_grammar.py:116-119 | exactly the names given, each once, ordered by the position of their first appearance |
| VerbGrammar.DedupDistinct | server/ro_form_gen/verbform_grammar.py:116-119 | names that are already distinct come out unchanged |
| VerbGrammar.WithHead | server/ro_form_gen/verbform_grammar.py:118 | the rules with the given head; empty exactly when no rule has it |
| VerbGrammar.GroupsSpec | server/ro_form_gen/verbform_grammar.py:116-119 | a name's group holds exactly the rules with that head, in order; only head names are keys |
| VerbGrammar.GrammarOfSpec | server/ro_form_gen/verbform_grammar.py:113-119 | one key per head name, in order of first appearance, holding exactly that head's rules in order |
| VerbGrammar.GrammarOfStep | server/ro_form_gen/verbform_grammar.py:117-118 | one more rule: a new head joins the names, and the rule joins its head's group |
| VerbGrammar.NewGrammar | server/ro_form_gen/verbform_grammar.py:113-119 | the loop builds the grammar of the rule list |
| VerbGrammar.AllSingled | server/ro_form_gen/verbform_grammar.py:128-130 | none exactly when some token cannot be made single; otherwise each token's single values |
| VerbGrammar.GeneratedErrSticks | server/ro_form_gen/verbform_grammar.py:129-130 | once a rule raises, no later rule is tried |
| VerbGrammar.GeneratedStep | server/ro_form_gen/verbform_grammar.py:124-131 | the rules up to the i-th are the earlier ones plus that rule |
| VerbGrammar.GeneratedBounds | server/ro_form_gen/verbform_grammar.py:121-132 | at most one sequence per rule; rules built from single values never raise; when every rule rejects, nothing is generated |
| VerbGrammar.SingleAll | server/ro_form_gen/verbform_grammar.py:128 | every token is tried, failures included |
| VerbGrammar.AllSingledIs | server/ro_form_gen/verbform_grammar.py:128-129 | when every token is made single, the sequence is their single values |
| VerbGrammar.GenerateBasedOn | server/ro_form_gen/verbform_grammar.py:121-132 | an unknown rule name raises; otherwise the group's rules are tried in order, skipping rejected and empty expansions, raising when a sequence cannot be made single |
| VerbGrammar.RuleMatchesSound | server/ro_form_gen/verbform_grammar.py:137-141 | each reported match is a non-empty match of a rule in the named group |
| VerbGrammar.RuleMatchesComplete | server/ro_form_gen/verbform_grammar.py:137-141 | every rule of the group with a non-empty match is reported |
| VerbGrammar.GroupMatches | server/ro_form_gen/verbform_grammar.py:137-141 | the inner loop collects one group's non-empty matches |
| VerbGrammar.SequenceMatches | server/ro_form_gen/verbform_grammar.py:134-142 | every group in key order, every rule in group order |
| VerbGrammar.NameMatchesSound | server/ro_form_gen/verbform_grammar.py:134-142 | every reported pair names a group and a non-empty match of one of its rules |
| VerbGrammar.NameMatchesComplete | server/ro_form_gen/verbform_grammar.py:134-142 | every non-empty match of a rule of a listed group is reported |
| VerbGrammar.DecodeAll | server/ro_form_gen/verbform_grammar.py:148-163 | each tag decoded in turn; an error exactly when some tag fails |
| VerbGrammar.Part | server/ro_form_gen/verbform_grammar.py:166-196 | an expansion atom built from strings is single-valued |
| VerbGrammar.RoVerbRules | server/ro_form_gen/verbform_grammar.py:165-201 | seven single-valued rules in the order the grammar receives them, the two subjunctive heads restricting Person to 1 and 2, and to 3 |
| VerbGrammar.RoHeadsSix | server/ro_form_gen/verbform_grammar.py:200-201 | six distinct head names, Subjunctive repeated |
| VerbGrammar.DedupSix | server/ro_form_gen/verbform_grammar.py:116-119 | six distinct names with the last repeated keep the first six |
| VerbGrammar.RepeatedHeadRules | server/ro_form_gen/verbform_grammar.py:118 | only the last two of the seven rules carry the repeated name |
| VerbGrammar.RoGrouping | server/ro_form_gen/verbform_grammar.py:200-201 | the grammar's six names in order, the subjunctive group holding Subjunctive12 then Subjunctive3 |
| VerbGrammar.RoNames | server/ro_form_gen/verbform_grammar.py:200-201 | the grammar's names are the six head names in the order given |
| VerbGrammar.RoSubjunctiveGroup | server/ro_form_gen/verbform_grammar.py:200-201 | the subjunctive group holds the last two rules, Subjunctive12 then Subjunctive3 |
| VerbGrammar.Subjunctive12Person | server/ro_form_gen/verbform_grammar.py:190 | the Subjunctive12 head accepts exactly Person 1 or 2, or no Person |
| VerbGrammar.Subjunctive3Person | server/ro_form_gen/verbform_grammar.py:194 | the Subjunctive3 head accepts exactly Person 3, or no Person |
| VerbGrammar.SingleRuleSingles | server/ro_form_gen/verbform_grammar.py:124-131 | a single-valued rule that accepts the values yields a sequence that can be made single |
| VerbGrammar.OnlyOneAccepts | server/ro_form_gen/verbform_grammar.py:121-132 | of two rules where exactly one accepts, that one yields the only sequence |
| VerbGrammar.SubjunctivePick | server/ro_form_gen/verbform_grammar.py:190-197 | the subjunctive rule whose Person admits the value yields the only sequence |
| VerbGrammar.RoSubjunctiveByPerson | server/ro_form_gen/verbform_grammar.py:190-201 | in the Romanian grammar a Person 3 subjunctive comes only from Subjunctive3 and one of Person 1 or 2 only from Subjunctive12 |
| SyntheticForms.FiltersNarrowNegPrefix | server/ro_form_gen/synthetic_form_generator.py:45-63 | both auxiliary filters keep only non-negated entries, and act exactly like the negation filter on every entry that is not the auxiliary avea |
| SyntheticForms.AuxFormsSplit | server/ro_form_gen/synthetic_form_generator.py:48-63 | on a non-negated avea auxiliary, "aș" and "ar" pass only the conditional filter, "a" and "au" only the past-perfect one, "ai" and "ați" both, and "am" the conditional one unless the tag is first person singular |
| SyntheticForms.FilterKey | server/ro_form_gen/synthetic_form_generator.py:27-29 | the key chosen is a key of the filter dict |
| SyntheticForms.RoFilterChoice | server/ro_form_gen/synthetic_form_generator.py:27-82 | the two conditionals use the conditional filter, the past perfect its own, every other rule the negation filter |
| SyntheticForms.Found | server/ro_form_gen/lexicon.py:110-113 | no forms exactly when the lemma is unknown |
| SyntheticForms.FoundSound | server/ro_form_gen/synthetic_form_generator.py:36 | every form found belongs to an entry of the lemma whose tag matches and that the filter keeps |
| SyntheticForms.FoundComplete | server/ro_form_gen/synthetic_form_generator.py:36 | every entry of the lemma whose tag matches and that the filter keeps gives one of the forms found |
| SyntheticForms.LookupTagged | server/ro_form_gen/synthetic_form_generator.py:35-36 | an encoding error is raised; a missing tag raises for a known lemma and finds nothing for an unknown one; otherwise the lexicon's answer |
| SyntheticForms.LookupFound | server/ro_form_gen/synthetic_form_generator.py:36 | the lookup with an encoded tag answers what the lexicon selection says |
| SyntheticForms.Unagreed | server/ro_form_gen/synthetic_form_generator.py:35 | exactly the features whose value is not the agreement placeholder, unchanged |
| SyntheticForms.FirstError | server/ro_form_gen/synthetic_form_generator.py:32-37 | the positions' outcomes in order, or the first error when one raises |
| SyntheticForms.FirstErrorStep | server/ro_form_gen/synthetic_form_generator.py:32-37 | one more position after the earlier ones |
| SyntheticForms.FirstErrorSticks | server/ro_form_gen/synthetic_form_generator.py:32-37 | once a position raises, the later ones do not matter |
| SyntheticForms.Lookups | server/ro_form_gen/synthetic_form_generator.py:32-37 | each position looked up on its own |
| SyntheticForms.Collected | server/ro_form_gen/synthetic_form_generator.py:38-42 | none exactly when some position found nothing; otherwise every list, or the first form of each when reducing |
| SyntheticForms.RuleFormsNone | server/ro_form_gen/synthetic_form_generator.py:22-42 | no forms exactly when the grammar yields no sequence, or no position of the first one raises and some position finds nothing |
| SyntheticForms.CollectedNone | server/ro_form_gen/synthetic_form_generator.py:38-39 | with no error, nothing is collected exactly when some position found nothing |
| SyntheticForms.RuleFormsFound | server/ro_form_gen/synthetic_form_generator.py:22-42 | when a rule has forms, every position of the first sequence has a lemma and an encodable tag, and holds exactly what the lexicon finds for them with the rule's filter, or its first form |
| SyntheticForms.SyntheticFormGenerator.constructor | server/ro_form_gen/synthetic_form_generator.py:15-20 | the fields are those given; absent filters leave an empty filter dict |
| SyntheticForms.SyntheticFormGenerator.RuleToForms | server/ro_form_gen/synthetic_form_generator.py:22-42 | the method computes the rule's forms: grammar errors raise, no sequence gives none, else the first sequence's positions are looked up in turn |
| WordForms.DefaultFilter | server/ro_form_gen/word_info_extractor.py:101 | the default filter exactly when the generator has one |
| WordForms.CollectedOne | server/ro_form_gen/word_info_extractor.py:102-106 | a single position is collected as itself: nothing when it found nothing, else its list or its first form |
| WordForms.FirstErrorOne | server/ro_form_gen/word_info_extractor.py:99-101 | a single outcome is its own error or its value alone |
| WordForms.DirectFormsFound | server/ro_form_gen/word_info_extractor.py:99-106 | a direct lookup yields forms exactly when the features encode a tag and the lexicon finds some form for the lemma and tag with the default filter; then the list, or its first form when reducing |
| WordForms.DirectFormsRaise | server/ro_form_gen/word_info_extractor.py:99-101 | a direct lookup raises exactly when the features cannot be encoded, or encode no tag for a known lemma |
| WordForms.DirectIsOnePosition | server/ro_form_gen/word_info_extractor.py:99-106 | the direct lookup is the synthetic path's collection over a single position, with the default filter |
| WordForms.WordFormGenerator.constructor | server/ro_form_gen/word_info_extractor.py:86-92 | the fields are those given, absent filters become an empty dict, and the synthetic generator shares them |
| WordForms.WordFormGenerator.GenerateForm | server/ro_form_gen/word_info_extractor.py:94-106 | no lemma gives none; a synthetic rule gives that rule's forms; otherwise the direct lookup, whose outcome the DirectForms lemmas characterise |
| Questions.Question | server/question.py:3-12 | the given fields, with initialMovable false by default |
| EnglQuestions.SubjProns | server/engl_question_gen.py:12-13 | every number and person has a pronoun, and the first holds no comma |
| EnglQuestions.NegatedVerb | server/engl_question_gen.py:6-10 | the negated copula is the affirmative one with "n't", except "'m not" for "am" |
| EnglQuestions.FirstIndex | server/engl_question_gen.py:28 | the first occurrence of the character |
| EnglQuestions.SplitOn | server/engl_question_gen.py:28 | at least one piece, and no piece holds the separator |
| EnglQuestions.JoinSplit | server/engl_question_gen.py:28 | joining the pieces with the separator gives the string back |
| EnglQuestions.DropSpaces | server/engl_question_gen.py:54-56 | the rest of the string, starting with no whitespace |
| EnglQuestions.DropSpacesSuffix | server/engl_question_gen.py:54-56 | only leading whitespace is dropped, and the rest is the string's end |
| EnglQuestions.WordEnd | server/engl_question_gen.py:54-56 | the leading run of non-whitespace ends at whitespace or the end |
| EnglQuestions.LeadingRunNoSpace | server/engl_question_gen.py:54-56 | the leading run holds no whitespace |
| EnglQuestions.ConsWords | server/engl_question_gen.py:54-56 | a word in front of words gives words |
| EnglQuestions.WordsAreWords | server/engl_question_gen.py:54-113 | no word of a whitespace split is empty or holds whitespace |
| EnglQuestions.NonSpaceAppend | server/engl_question_gen.py:54-56 | the non-whitespace text of a concatenation is that of each part |
| EnglQuestions.NonSpaceOfSpaces | server/engl_question_gen.py:54-56 | whitespace carries no text |
| EnglQuestions.NonSpaceOfWord | server/engl_question_gen.py:54-56 | a string without whitespace is all text |
| EnglQuestions.DropSpacesText | server/engl_question_gen.py:54-56 | leading whitespace carries no text |
| EnglQuestions.FirstWordText | server/engl_question_gen.py:54-56 | the text of a string is its first word then the text of the rest |
| EnglQuestions.WordsKeepText | server/engl_question_gen.py:54-113 | splitting on whitespace loses exactly the whitespace |
| EnglQuestions.OneWord | server/engl_question_gen.py:54-56 | a non-empty string without whitespace is one word |
| EnglQuestions.Cap | server/engl_question_gen.py:82-83 | the first character upper-cased, the rest kept, the length unchanged |
| EnglQuestions.CapIdempotent | server/engl_question_gen.py:82-83 | capitalising twice is capitalising once |
| EnglQuestions.SubjPron | server/engl_question_gen.py:21-28 | the table's first pronoun when none is given, the pronoun itself when it has no comma, else one of its comma-separated pieces; never a comma |
| EnglQuestions.ArrangeShape | server/engl_question_gen.py:62-67 | either order keeps the opening and the words and ends with its mark |
| EnglQuestions.CopulativeEnds | server/engl_question_gen.py:44-67 | every sentence opens with the short answer's yes or no (nothing otherwise) and ends with "?" for a question and "." otherwise |
| EnglQuestions.QuestionReorders | server/engl_question_gen.py:65-67 | a question holds the same tokens as the statement before the closing mark, only reordered |
| EnglQuestions.ShortAnswerShape | server/engl_question_gen.py:49-67 | an unsplit short answer is "yes," or "no,", the pronoun and the verb (verb first in a question), then the mark; the predicate is dropped |
| EnglQuestions.SplitShortAnswerPrefix | server/engl_question_gen.py:52-53 | a split short answer opens with "yes" or "no", then "," |
| EnglQuestions.BankOf | server/engl_question_gen.py:105 | no longer than the list; every banked word is free of punctuation and in the list, and every such word of the list is banked |
| EnglQuestions.BankOfCounts | server/engl_question_gen.py:105 | the bank holds each word without punctuation exactly as often as the list does, and no punctuated word |
| EnglQuestions.BankOfAppend | server/engl_question_gen.py:105 | the filter keeps order: the bank of one list followed by another is the first list's bank followed by the second's |
| EnglQuestions.BankOfOne | server/engl_question_gen.py:105 | a single word is banked exactly when it contains none of `,?.!` or a line feed |
| EnglQuestions.SlotsOf | server/engl_question_gen.py:106 | one slot per word: the word when it holds punctuation, blank otherwise |
| EnglQuestions.Decimal | server/engl_question_gen.py:103 | a non-empty string of decimal digits |
| EnglQuestions.DecimalValue | server/engl_question_gen.py:103 | reading a written number back gives the number, and only zero has a leading zero |
| EnglQuestions.ShortAnswer | server/engl_question_gen.py:100-101 | the capitalised short negative answer: "No,", the pronoun, the negated verb, "." |
| EnglQuestions.JoinedNonEmpty | server/engl_question_gen.py:104 | a statement of two or more words joins to a non-empty string |
| EnglQuestions.NextQuestion | server/engl_question_gen.py:95-96 | none exactly when the count exceeds the number of questions; otherwise the round's question for that count, whose shape QuestionShape states |
| EnglQuestions.QuestionShape | server/engl_question_gen.py:97-107 | the answer is the question then the short negative answer; the slots show punctuation, blank the rest and break the line between them; the bank holds exactly the answer's words without punctuation, each as often as the answer has it; the prompt opens with the count |
| EnglQuestions.QuestionBank | server/engl_question_gen.py:97-107 | a round's bank holds exactly the words of its answer that have no punctuation, each as often as the answer has it |
| EnglQuestions.SlotsAround | server/engl_question_gen.py:106 | the slots of question and answer are each word's slot with the line break between |
| EnglQuestions.MakeQuestionSequence.constructor | server/engl_question_gen.py:89-91 | the given number of questions, and a count of zero |
| EnglQuestions.MakeQuestionSequence.GetNextQuestion | server/engl_question_gen.py:92-107 | a good answer advances the count, and the question is the one for the new count, none past the last |
| EnglQuestions.Blanks | server/engl_question_gen.py:117 | n blank slots |
| EnglQuestions.JoinEmpty | server/engl_question_gen.py:115 | words joined by a separator are empty only when there are none or one empty one |
| EnglQuestions.StatementToQuestionRaises | server/engl_question_gen.py:109-119 | raises exactly when a part is missing, or when splitting leaves no word to capitalise |
| EnglQuestions.StatementToQuestionShape | server/engl_question_gen.py:109-119 | the answer is copula, subject, predicate, "?"; every slot is blank but the last "?"; the bank holds the same words in statement order; the prompt is the intro (the default one when none or an empty one is given) followed by the bank's words joined by spaces, capitalised, and "." |
| EnglQuestions.BlanksThenMark | server/engl_question_gen.py:117 | blank runs then "?" are blank everywhere but the end |
| EtreAvoirQuestions.Unbroken | server/etre_avoir.py:8-20 | the slot row without its line breaks is no longer than the row |
| EtreAvoirQuestions.UnbrokenAppend | server/etre_avoir.py:8-10 | dropping line breaks works piece by piece |
| EtreAvoirQuestions.BlankAnswersAppend | server/etre_avoir.py:8-14 | the blanks' answer words are collected piece by piece |
| EtreAvoirQuestions.RowUnbroken | server/etre_avoir.py:8-10 | a table row has no line break to drop |
| EtreAvoirQuestions.RowBlanks | server/etre_avoir.py:8-14 | a row's blanks take its two verb forms in order |
| EtreAvoirQuestions.PairRow | server/etre_avoir.py:8-14 | a row of two persons, each with a blank for its verb form, shows every fixed word of its answer |
| EtreAvoirQuestions.Swap | server/etre_avoir.py:11 | exchanging two neighbours keeps the multiset |
| EtreAvoirQuestions.Interleaved | server/etre_avoir.py:11-14 | singular forms then plural forms are, as a multiset, the forms read row by row |
| EtreAvoirQuestions.TableFillable | server/etre_avoir.py:6-25 | a three-row conjugation table is fillable from a bank listing singular forms before plural ones |
| EtreAvoirQuestions.EtreCompletable | server/etre_avoir.py:6-15 | the être table can be completed from its bank to give its answer |
| EtreAvoirQuestions.AvoirCompletable | server/etre_avoir.py:16-25 | the avoir table can be completed from its bank to give its answer |
| EtreAvoirQuestions.QuestionsCompletable | server/etre_avoir.py:6-25 | both questions can be completed from their banks |
| EtreAvoirQuestions.BankWordsPronounced | server/etre_avoir.py:11-58 | every word of the word banks has a recording |
| EtreAvoirQuestions.Served | server/etre_avoir.py:33-35 | none from the third question on; a count of -1 reads the last question as Python does; otherwise the question at the count |
| EtreAvoirQuestions.EtreAvoir.constructor | server/etre_avoir.py:27-28 | the count starts at -1 |
| EtreAvoirQuestions.EtreAvoir.GetNextQuestion | server/etre_avoir.py:30-35 | a good answer advances the count, and the question served is the one for the new count |
| VocabQuestions.SliceBound | server/vocab_simple.py:20 | a Python slice bound: negatives count from the end, and all are clamped to the length |
| VocabQuestions.Slice | server/vocab_simple.py:20 | a slice is never longer than the list |
| VocabQuestions.ChunkWords | server/vocab_simple.py:20 | at most three words; from an index inside the list, the next three or the rest |
| VocabQuestions.Payload | server/vocab_simple.py:21-25 | one slot and one picture target per word, in order; the words are both bank and answer |
| VocabQuestions.Served | server/vocab_simple.py:18-19 | none exactly when the index is past the end of the list |
| VocabQuestions.FailedFirstIsEmpty | server/vocab_simple.py:13-20 | a failed first answer leaves the index at -3, whose slice is empty: a question with no word is served |
| VocabQuestions.SuccessiveCovers | server/vocab_simple.py:16-20 | successive chunks are consecutive and disjoint, together the rest of the list |
| VocabQuestions.SevenWordsServed | server/vocab_simple.py:9-26 | seven words answered well are served as chunks of 3, 3 and 1 that together are the list, then nothing |
| VocabQuestions.WordsHaveMedia | server/vocab_simple.py:9-47 | every word of any order of the list has a recording and a picture |
| VocabQuestions.VocabSimple.constructor | server/vocab_simple.py:9-13 | the shuffled words, chunk size 3, and the index before the first chunk |
| VocabQuestions.VocabSimple.GetNextQuestion | server/vocab_simple.py:15-26 | a good answer advances the index by the chunk size, and the question served is the one for the new index |
| QuestionServer.FactoryPronunciations | server/server.py:174 | the English sequence gives no recordings; the être and avoir one gives its manifest |
| QuestionServer.Cleaned | server/server.py:133-137 | exactly the players seen within the time to live, unchanged |
| QuestionServer.CleanedLater | server/server.py:133-137 | cleaning up and cleaning up again later is cleaning up once, later |
| QuestionServer.StateAsWritten | server/server.py:100-108 | as written, the player state keeps the given last-seen time, since the hook never runs |
| QuestionServer.StateAtCreation | server/server.py:104-108 | as intended, a negative last-seen time becomes the time of creation |
| QuestionServer.SelectedAsWrittenIsStale | server/server.py:104-171 | as written, a player who just selected a sequence would be dropped by any cleanup once the clock is past half an hour; no route runs the cleanup, so this is latent |
| QuestionServer.SelectedSurvivesTtl | server/server.py:104-171 | as intended, a player who just selected a sequence survives every cleanup of the next half hour |
| QuestionServer.ResetAsWrittenKeepsPlayers | server/server.py:207-211 | as written, resetting keeps every player |
| QuestionServer.ReplyOf | server/server.py:199-204 | done exactly when there is no question, and then without a message |
| QuestionServer.NewFactory | server/server.py:98 | a fresh sequence of the named kind, before its first question |
| QuestionServer.Server.constructor | server/server.py:124 | an empty player table |
| QuestionServer.Server.CleanupPlayers | server/server.py:133-137 | the stale players are deleted and the rest kept |
| QuestionServer.Server.EnsurePlayer | server/server.py:140-147 | after the cleanup a known player is refreshed to now; an unknown sequence name for a new player raises; otherwise a new player with a fresh sequence of the named kind |
| QuestionServer.Server.ApiSelect | server/server.py:161-177 | an absent or unknown sequence is a 400 and changes nothing; a known one gives the player a fresh sequence, whose state keeps the default last-seen time -1 because the creation hook never runs, and the manifest of its recordings |
| QuestionServer.Server.ApiSelectIntended | server/server.py:104-108 | with the creation hook running, the same route stores the player as last seen now, and every cleanup within the next half hour keeps them |
| QuestionServer.Server.ApiNext | server/server.py:180-204 | a player without a sequence is told so; otherwise a missing or truthy success advances the player's sequence and its next question or done is served; the table is unchanged |
| QuestionServer.Server.ApiReset | server/server.py:207-211 | as intended, every player is forgotten |

## Left out

- Phaser rendering: slot outlines, `bringToTop`, scale changes, sound cues, `TextArea`, `SentenceScreenLook`, `ResultScene`, `WelcomeScene` and `game.ts`. They are visual only.
- Tweens and animation cancellation: `snapToCenter` and `returnHome` move the card to its end point at once. The code defines no contract for overlapping tweens.
- WordCard label width and scale fitting: these depend on the font metrics of the rendering engine. Only the font-size formula is modelled.
- Bank card placement in VocabScene and SentenceScene is left out; it draws from the random source and only places cards on screen. In SentenceScene (src/scenes/SentenceScene.ts:155-176) this covers the shuffle, the call to `randomDistributePoints` with minDist 120 and 40 tries, and the `Phaser.Math.Between` fallback for points it could not place. Only the top of the bank area (`SentenceScene.BankTop`) is modelled, and `randomDistributePoints` itself is modelled as `RandomDistribute.Distribute`.
- VocabScene's `isCorrect` is the same code as SentenceScene's, so it is modelled once, as `SentenceScene.IsCorrect` and `SentenceScene.CheckAnswer`.
- Network and asset I/O: the fetch calls in src/api/sentenceApi.ts, the audio and image loaders, and the Flask app, CORS, JSON bodies, `app.run` and `print` in server/server.py.
- The server's `api_sequences` and `_player_id` are left out: they only read the request and list names. The uuid fallback for a missing player id is left out as randomness.
- Randomness: `Math.random`, shuffles, `Phaser.Math.Between`, `random.choice`, `crypto.randomUUID` and `uuid4` are supplied values (an rng sequence, a permutation, a subject, a predicate or an index).
- The wall clock `time.time()` is the parameter `now`.
- Python truthiness of the `success` field is reduced to an optional boolean: absent or null counts as a good answer.
- QuestionServer.Server.ApiNext: its `requires EnglQuestions.InTables(subj.num, subj.pers)` is an assumption about the data file subjects.tsv, read at server/engl_question_gen.py:17 and not part of this model. Nothing in the code ensures that its `Num` and `Pers` columns are keys of `TO_BE` and `SUBJ_PRONS`. When they are not, Python raises `KeyError` in `generate_copulative_sentence` (server/engl_question_gen.py:47) or `get_subj_pron` (server/engl_question_gen.py:24), and the model does not cover that path. The predicate is a parameter, so the `IndexError` that `random.choice` raises when no predicate in npreds.tsv fits the subject (server/engl_question_gen.py:72-75) is not modelled either.
- PlayerState objects are values in the player map. The model keeps the table's contents and their updates, but not sharing one state object between several references.
- `Numeros`: server/server.py imports it from etre_avoir.py, which does not define it. Only the two sequences that exist are modelled.
- `VocabSimple` is not registered in the server's sequence table. It is modelled on its own, as `VocabQuestions`.
- The module-level pandas TSV reads of server/engl_question_gen.py: the subject and predicate tables are parameters.
- `get_lemma_and_features` and `extract_verb_and_functionals` of server/ro_form_gen/word_info_extractor.py: they walk dependency trees from a tree library that is not part of this model.
- `Lexicon.to_json`, `from_json` and `from_file`, server/ro_form_gen/generate_form_script.py and every `__main__` block: file loading only.
- Whether the Romanian tag table of server/ro_form_gen/msd_format.py decodes without error is not proved. The Romanian verb grammar lemmas are stated for any nine decoded feature dicts.
- WordInfo.BadTagDictRepairs: the repaired tag decodes to the same dict as its replacement only when the replacement decodes. Otherwise the error message names the original tag.
- Lexicons.RankKey: the sort key `-score + len(xpos)/100` is modelled multiplied by 100, as `|xpos| - 100 * score` in exact arithmetic. Floating-point rounding of the key is not modelled.
- VerbGrammar: the source updates token feature sets in place and shares them between matches. The model computes the same feature maps as values, so aliasing between tokens is not captured.
- SlotScreens.UpperChar: case mapping is modelled for ASCII letters only. JavaScript's `toUpperCase` also maps letters such as "é", "ê" and "ă", and these stay unchanged in the model.
- SlotScreens.Capitalized: built on the ASCII-only UpperChar, so a first letter such as "é" is not capitalised. Its length clause holds for the model only: `toUpperCase` turns "ß" into "SS" and lengthens the word.
- SlotScreens.AfterOnPlace: the slot-0 capitalisation inherits the ASCII-only case mapping, so "é", "ê" and "ă" at the start of a sentence are not capitalised.
- EnglQuestions.Upper: `str.upper` is modelled for ASCII letters only. Python also maps "é" to "É" and "ß" to "SS".
- EnglQuestions.Cap: built on the ASCII-only Upper, so its length clause holds for the model only. Python's "ß".upper() is "SS".
- EnglQuestions.IsSpace: only space, tab, line feed, carriage return, vertical tab and form feed are whitespace. Python's `str.split()` also splits at \x1c-\x1f, \x85, \xa0, \u1680, \u2000-\u200a, \u2028, \u2029, \u202f, \u205f and \u3000.
- EnglQuestions.DropSpaces: leading whitespace is the six ASCII characters of IsSpace only. The other characters Python treats as whitespace are kept.
- EnglQuestions.WordEnd: a word ends only at one of the six ASCII whitespace characters of IsSpace. Python's `str.split()` would also end it at the other whitespace characters.
- WordCards.FontSizeFor: the length is counted in characters (Unicode scalar values), while `displayWord.length` (src/objects/WordCard.ts:122) counts UTF-16 code units. A word containing an astral character, such as an emoji, is one unit longer per such character in the source, so its font size can be smaller there.
- Floating point: all coordinates, sizes and times are `real`. IEEE rounding is not modelled.

## Findings

| source | as written | input that shows it | evidently intended | confidence | as-written member | corrected member |
|---|---|---|---|---|---|---|
| server/server.py:104-108 | the hook is named `__post_init`, so dataclasses never call it, and a state made by `api_select` keeps last-seen time -1 | select a sequence when the clock reads more than 1799 seconds, then run `_cleanup_players`: the player is dropped with their progress. No route runs the cleanup today, so the defect is latent until `_ensure_player` is called | `__post_init__` sets a negative last-seen time to the time of creation | not executed | QuestionServer.SelectedAsWrittenIsStale | QuestionServer.Server.ApiSelectIntended |
| server/server.py:207-211 | `PLAYERS = {}` without `global` binds a local name, so the player table is left unchanged | reset while any player is in the table: the player is still there afterwards | reset empties the player table | not executed | QuestionServer.ResetAsWrittenKeepsPlayers | QuestionServer.Server.ApiReset |
