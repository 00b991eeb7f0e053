# Word puzzle core, modelled in Dafny

This project models the game logic of a small browser word puzzle. The player connects letters around a circular tray (G, O, D, L) to spell words. Each found word fills its cells in a 3 by 4 crossword grid, three of whose cells are permanently hidden. The dictionary has four words: GOLD, GOD, DOG and LOG. After all four are found, an end screen with a spinning earth appears. If the player is idle, a hint names the next unfound word; after the hint animation's second repeat, autoplay spells that word.

The model keeps the discrete state the rendering code works on:

- the tray's letters, and each letter sprite's text, slot and highlight;
- two selections, kept separate: the tray's, filled by dragging, and the game's, filled by autoplay;
- the found-word list, shared by the game and the tray;
- the grid's cell matrix;
- the autoplay flag, the pending inactivity timeout, the selected-letters display;
- the hint messages and hand sprites on stage, and the message and hand the game refers to;
- the end screen's frame index.

Modules follow the source files:

- `Grid` (`wordGrid.js`): the cell matrix and the per-cell fill.
- `Words` (the word check in `eventHandlers.js`):
  - the dictionary and its well-formedness;
  - the found-word invariants;
  - the grid/found-words correspondence and the result of any order of play.
- `Tray` (`letterTray.js`): sprites, the shuffle retry loop and the sprite retargeting.
- `EndScreen` (`endGame.js`): frame cutting and the modulo-19 frame cycle.
- `GameScene` (`game.js`, plus `onGameEnd`): the scene, the display, the game's timer and its word check.
- `Handlers` (`eventHandlers.js`): click, move, release, clearing, the inactivity timer, the hint and autoplay.
- `TrayInput` (the listeners in `letterTray.js`).

Other conventions:

- Shared JavaScript arrays become small classes, so sharing by reference is structural. `WordList` holds the found words; each `Selection` is one `selectedLetters` array.
- A sprite is named by its index in the tray's sprite list.
- Every timeout, tween completion and timeline callback is a method the caller invokes when it would fire.

Where the documented behaviour of the game and its code differ, the model follows the code:

- `updateGrid` is documented as all-or-nothing: nothing is filled if any target cell is already filled. Its guard, however, reads a `filled` property of a `[row, col]` pair, and no code ever sets that property. So the guard never aborts (`Grid.PairFilled` is always false). The only effective check is the per-cell test, so committing a word whose cells overlap an earlier word fills just its new cells.
- Autoplay is documented as checking its eligibility flag before finalising. The final scripted step, however, checks the word and clears the game's selection first, and only then tests the flag (`Handlers.AutoplayFinish`).
- The game scene's own `checkWord` (`src/game.js:92-97`) is never called: the tray's release listener and the final autoplay step call the handlers' `checkWord` directly (`src/eventHandlers.js:69` and `:333`). The end of the game comes from the check's scheduled `onGameEnd`. `GameScene.Game.CheckWord` models the unused method all the same.
- Showing a hint never takes down a message or hand already on stage, and a reset takes down only the ones the game refers to. Two hints shown without a reset in between therefore leave the earlier message on stage for good (`Handlers.HintsPileUp`). This happens when the next-hint timeout of an autoplay, which nothing cancels, and an inactivity timeout both fire.

## Model

| member | source | states |
|---|---|---|
| Grid.WordGrid.constructor | src/wordGrid.js:20-50 | Builds the matrix row by row. The result is the initial 3 by 4 layout with an empty cell at 90·col, 90·row, except where the cell is hidden. |
| Grid.InitialCellsLaid | src/wordGrid.js:6-15 | The initial matrix is 3 by 4. It is hidden exactly at (1,1), (1,3) and (2,3), so exactly nine cells are visible; every visible cell is at its place, and no cell is filled. |
| Grid.WordGrid.UpdateGrid | src/wordGrid.js:52-87 | The early-abort guard never aborts. The fill loop's result equals the prefix fill over all positions, and the layout is preserved. |
| Grid.FillLaid | src/wordGrid.js:66-85 | Filling never changes which cells are hidden or where the visible cells sit. |
| Grid.FillWrites | src/wordGrid.js:66-85 | Each cell after the fill is either unchanged, or was an empty visible cell that now holds `word[i]` for a position `i` naming it. Filled cells keep their letter; cells not named are untouched. |
| Grid.FillMarks | src/wordGrid.js:69-83 | Every visible cell named by a processed position is filled afterwards. |
| Grid.FillKeepsFilled | src/wordGrid.js:69-83 | A filled cell stays filled with the same letter through any later fill steps. |
| Words.Selection.constructor | src/game.js:24 | A new selection is empty. |
| Words.WordList.constructor | src/game.js:25 | A new found-word list is empty. |
| Words.SelectedWord | src/eventHandlers.js:127 | The selected word has one letter per entry: letter `i` is entry `i`'s letter, in selection order. |
| Words.DictionaryKeys | src/eventHandlers.js:129-151 | The dictionary's keys are exactly the four hint words, with no repeats. |
| Words.DictionaryOnBoard | src/eventHandlers.js:129-151 | Each word has one distinct position per letter. Every position is a visible grid cell, and the word's letter there is the solved board's letter. |
| Words.SharedCellsAgree | src/eventHandlers.js:129-151 | Two words that target the same cell put the same letter there. |
| Words.DictionaryCoversGrid | src/eventHandlers.js:129-151 | Together, the four words reach every visible cell. |
| Words.FlightLandsOnCell | src/eventHandlers.js:159-161 | A letter flies to (105 + 90·col, 120 + 90·row): the centre of the target cell as laid out by the grid. |
| Words.Flights | src/eventHandlers.js:158-176 | One flight per selected letter, in selection order: letter `i` flies from its sprite to the target of the word's `i`-th position. |
| Words.CheckWord | src/eventHandlers.js:126-186 | A word is accepted iff the joined selection is a dictionary key not yet found. If accepted, exactly that word is appended and the grid commits it; otherwise both are unchanged. An accepted word sends one flight per letter to its target (`Words.Flights`), a rejected one none. The end is scheduled iff this check made the count four. The grid/found-words correspondence is preserved. |
| Words.RecordValid | src/eventHandlers.js:153-155 | Checking keeps the found words distinct dictionary words. The list only grows, stays at most 4, and changes iff the word is accepted. |
| Words.RecordIdempotent | src/eventHandlers.js:153-155 | Checking the same word again changes nothing, and a checked dictionary word is afterwards found. |
| Words.FoundBound | src/eventHandlers.js:153-155 | At most four words are ever found. |
| Words.FourFoundAreAll | src/eventHandlers.js:180 | Four found words are all the dictionary words. |
| Words.InitialGridMatches | src/wordGrid.js:20-50 | The initial grid matches the empty found-word list. |
| Words.CommitStep | src/eventHandlers.js:153-155 | Committing a new word keeps the invariant: a cell is filled iff some found word reaches it, and then it holds the board's letter. |
| Words.AllFoundSolved | src/eventHandlers.js:129-155 | Once every dictionary word is found, the grid equals the solved board. |
| Words.PlayKeepsMatch | src/eventHandlers.js:153-155 | Any run of checks keeps the grid and list consistent, never removes a word, and leaves every checked dictionary word found. |
| Words.AnyOrderSolves | src/eventHandlers.js:129-155 | Checking the four words in any order, with any other attempts mixed in, ends with the same solved grid. |
| Words.RunGrows | src/eventHandlers.js:153-155 | A run of checks keeps the list valid and never shrinks it. |
| Words.EndScheduledOnce | src/eventHandlers.js:180-184 | Over any run of checks, the end of the game is scheduled at most once: exactly when the run takes the count from below four to four. |
| Tray.LetterTray.constructor | src/letterTray.js:12-28 | Stores the shared grid and found words, starts with an empty selection, and renders one unselected sprite per letter, letter `i` in slot `i`. |
| Tray.LetterTray.RenderLetters | src/letterTray.js:60-123 | Afterwards there is exactly one sprite per letter, in letter order, each in its own slot, unselected. Each sprite sits in the slot of its letter. |
| Tray.LetterTray.FindSprite | src/letterTray.js:165-167 | Returns the first sprite showing the letter, or none iff no sprite shows it. When the sprites show the tray's letters, a tray letter is always found. |
| Tray.HasChanged | src/letterTray.js:139-147 | True iff the candidate order differs from the current one at some index. |
| Tray.FirstChange | src/letterTray.js:135-153 | The accepted order is a candidate that differs from the current order, and every candidate before it equals the current order. None is accepted iff every candidate equals the current order. |
| Tray.DrawShuffle | src/letterTray.js:135-153 | The retry loop accepts exactly the first candidate that differs. |
| Tray.AcceptedShuffle | src/letterTray.js:132-153 | An accepted order is a permutation of the letters that moves at least two of them, and it keeps the letters distinct. |
| Tray.LetterTray.MoveSprites | src/letterTray.js:164-185 | Every sprite is sent to the slot its letter has in the new order. |
| Tray.LetterTray.ShuffleLetters | src/letterTray.js:126-188 | The letters become the first differing candidate, with every sprite sent to its letter's new slot. Sprite texts are unchanged. The tray invariant (distinct letters, sprites showing exactly the letters) is kept. With no differing candidate, nothing changes. |
| Tray.LetterTray.CompleteShuffle | src/letterTray.js:174-182 | Sprite `i` goes to slot `i` and shows `order[i]`, and the sprite order is unchanged. The sprites are arranged iff the order is still the tray's current order. |
| Tray.LetterTray.PlaceSprites | src/letterTray.js:177-181 | The completion loop puts sprite `i` at slot `i` showing `order[i]`, keeping the tray invariant. |
| Tray.SelectionBound | src/eventHandlers.js:34-43 | A selection that names each sprite at most once has at most as many entries as there are sprites. |
| EndScreen.SheetFramesCover | src/endGame.js:16-32 | The 19 frames are every cell of the 5 by 4 sheet except (4,3), each exactly once, in row-major order. |
| EndScreen.EndGame.constructor | src/endGame.js:11-42 | Cuts the frames, shows frame 0, and takes the first step at once, so frame 1 is on show. |
| EndScreen.EndGame.UpdateFrame | src/endGame.js:47-51 | The index advances by one modulo the frame count, and the texture is that frame. |
| EndScreen.IndexAfter | src/endGame.js:46-52 | After any number of steps, the index is below 19. |
| EndScreen.IndexAfterCounts | src/endGame.js:46-52 | After `n` steps, the index is `n mod 19`. |
| EndScreen.AnimationPeriod | src/endGame.js:48 | The frame cycle has period 19. |
| GameScene.Game.constructor | src/game.js:21-44 | The letters are G, O, D, L in order; both selections and the found words are empty; autoplay is on. The tray, both selections, the grid and the found-word list are new objects; the tray shares the grid and found-word list but has its own selection. The tray shows G, O, D, L in slots 0 to 3, none lit, no drag, the shuffle button visible. The game's inactivity timer is running. |
| GameScene.Game.UpdateSelectedLettersDisplay | src/game.js:99-122 | Hidden iff the selection is absent or empty. Otherwise it shows the joined letters on a background 30·n + 20 wide. |
| GameScene.Game.StartInactivityTimer | src/game.js:124-132 | The pending timeout becomes the game's own, which only shows the hint. The autoplay flag is not touched. |
| GameScene.Game.OnGameEnd | src/eventHandlers.js:424-437 | The tray and grid leave the stage, the background dims, the banner rises by 150, and a fresh end screen shows frame 1. |
| GameScene.Game.CheckWord | src/game.js:92-97 | Runs the shared check, with its flights, then ends the game at once iff four words are found, even if they were already four: the scene leaves the stage, the background dims, the banner rises and a fresh end screen shows frame 1. Otherwise the stage, background, banner and end screen are as they were. |
| GameScene.FourWordsSolveBoard | src/game.js:94-96 | When the game reaches four found words, the grid is the solved board. |
| GameScene.AtMostFourWords | src/game.js:25 | The game's found-word list never holds more than four words. |
| Handlers.SelectLetter | src/eventHandlers.js:76-92 | Highlights the sprite and appends it, with the text it shows now, to the given selection. |
| Handlers.ClearSelectedLetters | src/eventHandlers.js:95-114 | Empties the selection. Each named sprite's style is reset unless it shows the clicked letter; unnamed sprites keep their style. |
| Handlers.ExtendSelects | src/eventHandlers.js:34-43 | A move only appends. Afterwards the selection names exactly the old sprites plus those passed over, none twice, and each new entry carries its sprite's text. |
| Handlers.ExtendBound | src/eventHandlers.js:34-43 | However the pointer moves, the selection never holds more entries than there are sprites. |
| Handlers.DistinctTexts | src/letterTray.js:165-167 | Sprite texts are distinct, so a letter identifies its sprite. |
| Handlers.TakeDownHint | src/eventHandlers.js:193-200 | The referenced message and hand leave the stage and are forgotten; any other messages and hands stay on stage. |
| Handlers.ResetInactivityTimer | src/eventHandlers.js:189-205 | Cancels the timeout and turns autoplay off. Takes the referenced message and hand off stage and forgets them; other messages and hands stay. Clears the game's own selection, keeping a sprite showing the clicked letter highlighted. |
| Handlers.StartInactivityTimer | src/eventHandlers.js:208-217 | The pending timeout becomes the handlers' own, which shows the hint and turns autoplay on. |
| Handlers.OnLetterClick | src/eventHandlers.js:7-26 | Afterwards: autoplay is off; the tray selection is exactly the clicked letter; dragging is on; the game's selection is cleared with its sprites unlit; the referenced hint is taken down; the clicked sprite is lit. |
| Handlers.OnLetterMove | src/eventHandlers.js:29-56 | Does nothing unless dragging. Otherwise the tray selection is extended by the unselected sprites under the pointer, and exactly those become lit. |
| Handlers.OnLetterRelease | src/eventHandlers.js:59-73 | Without dragging, nothing changes, no letter flies and dragging stays off. Otherwise: dragging ends; the word is checked once, with the flights of an accepted word; the selection is emptied with its sprites unlit; the shuffle button shows. |
| Handlers.ForEachSkipsNextLetter | src/eventHandlers.js:34-43 | With two letter sprites under the pointer, next to each other in child order, the move handler as written selects only the first, while `Handlers.Extend` selects both. |
| Handlers.Unfound | src/eventHandlers.js:221-223 | The remaining words are exactly the listed words not yet found. |
| Handlers.UnfoundFirst | src/eventHandlers.js:221-224 | The first remaining word is the first listed word not found, and there is one iff some listed word is not found. |
| Handlers.NextHintIsFirstUnfound | src/eventHandlers.js:221-225 | The hint is the first of GOLD, GOD, DOG, LOG not found, and there is none exactly when all four are found. |
| Handlers.HintTimeline.constructor | src/eventHandlers.js:267 | A new hint timeline repeats twice and has counted no repeats yet. |
| Handlers.ShowInactivityMessage | src/eventHandlers.js:220-264 | If an unfound word remains, a new "Connect the letters" message with the hint word and a new hand join the stage after those already there, become the referenced ones, and a timeline for that word starts. Otherwise nothing changes. |
| Handlers.FireInactivityTimer | src/eventHandlers.js:213-216 | The timeout shows the hint: if a word remains, a new message for the first unfound word and a new hand join the stage, and a timeline for that word starts with two repeats to go. The handlers' timeout then turns autoplay on; the game's own leaves the flag as it was. |
| Handlers.OnHintRepeat | src/eventHandlers.js:286-289 | Counts a repeat. Autoplay starts iff the count has reached the repeat count while autoplay is on. |
| Handlers.AutoplayStep | src/eventHandlers.js:290-329 | With autoplay off, nothing changes. With it on, the sprite showing the letter joins the game's selection, lit, and the display shows the selection. |
| Handlers.CheckAutoplayWord | src/eventHandlers.js:333-338 | Checks the game's selection as a word (same effect and flights as a manual check), then empties it with every named sprite unlit. |
| Handlers.AutoplayFinish | src/eventHandlers.js:332-360 | Checks and clears first, with the flights of an accepted word. Only if autoplay is still on: the shuffle button shows, the display hides, the referenced message leaves the stage (the game still refers to it), and the next hint is scheduled iff a word remains. |
| Handlers.NextHintTimeout | src/eventHandlers.js:355-358 | Turns autoplay on. If a word remains, a new message for the first unfound word and a new hand join the stage and a timeline with two repeats to go starts; otherwise the stage is unchanged. |
| Handlers.HintsPileUp | src/eventHandlers.js:189-249 | A next-hint timeout and an inactivity timeout that both fire before a reset leave, after the reset, one message for the first unfound word on stage with no message or hand referenced. |
| TrayInput.PointerDown | src/letterTray.js:79-92 | Hides the shuffle button. The tray selection becomes the pressed letter and the display shows it. The pressed sprite is lit, the game selection's sprites are unlit, and every other sprite keeps its highlight. The timer is reset with autoplay off and the referenced hint taken down. |
| TrayInput.PointerMove | src/letterTray.js:94-97 | While dragging, the tray selection is extended and exactly the newly selected sprites become lit; otherwise selection and highlights are unchanged. The display shows the selection, or hides when it is empty. |
| TrayInput.PointerUp | src/letterTray.js:99-119 | Both release listeners do the same thing. After a drag: one word check with the flights of an accepted word, the selection emptied with its sprites unlit, the shuffle button shown, the display hidden. Without a drag: words, grid, selection, highlights and shuffle button unchanged, no flights, and the display shows the current selection. Either way the handlers' timer starts and the autoplay flag is left as it was. |
| TrayInput.ShufflePressed | src/letterTray.js:48-53 | The letters are shuffled (or, with no differing candidate, letters and slots stay as they were), the timer is reset with no clicked letter and the referenced hint taken down, autoplay is off, and the handlers' timer is pending. |
| TrayInput.ExtendOne | src/eventHandlers.js:34-43 | Passing over one sprite selects it iff the selection does not name it yet. |
| TrayInput.DragOver | src/letterTray.js:94-97 | During a drag, moving over one sprite appends it, with its text, unless it is already selected. |
| TrayInput.GodFlights | src/eventHandlers.js:158-161 | G, O, D selected from the initial tray spell GOD, whose letters fly to (105,120), (105,210) and (105,300). |
| TrayInput.ReleaseGod | src/letterTray.js:99-108 | Releasing a drag over G, O, D before any word is found records GOD with those three flights, without scheduling the end. |
| TrayInput.PressG | src/letterTray.js:79-92 | A new scene with G pressed: dragging, tray letters GODL, selection [G], nothing found, all objects fresh. |
| TrayInput.DragGo | src/letterTray.js:94-97 | From there, moving over O appends it: the selection is [G, O]. |
| TrayInput.DragGod | src/letterTray.js:94-97 | Then moving over D appends it: the selection is [G, O, D], still dragging, nothing found. |
| TrayInput.SpellGod | src/letterTray.js:79-108 | From the initial scene, pressing G, dragging over O then D and releasing finds GOD, empties the selection, ends the drag and shows the shuffle button. |

## Left out

- Rendering is not modelled: Pixi containers, graphics, text styles, colours, anchors, scales, alpha, and adding or removing children. Only the logical state they show is kept: the highlight, visibility, display text and width, on-stage flags, banner height, and which hint messages and hands are on stage.
- Time is not modelled. Each timeout, tween completion and timeline repeat is a method the caller invokes, and the caller decides the order of callbacks. The grid fill that the source runs 900 ms after the check happens at once in `Words.CheckWord`.
- Letter flights are reduced to their sprite and target (scene coordinates). The flying clones themselves are not modelled: neither their tween nor their time as children of the tray.
- Handlers.OnLetterMove: a flying clone is a text child of the tray for the second of its flight, and the move handler does not tell it from a letter sprite. So a drag over a just-used letter in that second can select its clone as well, and the selection can name the same letter twice (after GOD is found, pressing O and moving over it can spell "OO"). The model's pointer input names letter sprites only, so `Handlers.ExtendBound`, `Tray.SelectionBound` and the tray invariant's distinct, in-range selection hold for the model and not for the source in that second.
- Floating-point positions are not modelled: tray coordinates from `cos`/`sin`, the hand sprite's positions, and the sheet's frame rectangles. Slots are indices and frames are sheet coordinates.
- Pointer hit-testing is not modelled. `Handlers.OnLetterMove` takes the letter sprites under the pointer, in the order the handler visits them, as an input.
- Handlers.OnLetterMove: selects every unselected sprite under the pointer, which is what the handler evidently intends. As written, the handler skips the child that follows each sprite it selects (see Findings); the order of the tray's children is not tracked by the model.
- Tray.DrawShuffle: the random sorts are an input sequence of candidate orders, each a permutation of the letters. When every candidate equals the current order, the source keeps drawing forever; the model stops, and `Tray.LetterTray.ShuffleLetters` changes nothing.
- Tray.LetterTray.CompleteShuffle: the order is a parameter rather than a value captured by the animation. So a completion from an earlier, overlapping shuffle can be modelled, and the contract says when the sprites are then out of arrangement.
- Handlers.OnHintRepeat: the caller may invoke it only as often as the timeline repeats (twice), which is what the animation library guarantees.
- Connecting lines are not modelled: `startDrawingLine`, `onGlobalPointerMove`, `stopDrawingLine` and the line containers. This is DOM listener bookkeeping and drawing. The final autoplay step clears the tray's line container, which may not exist yet; that is not modelled.
- `Game.onLetterSelected` is not modelled. It is never called, and it passes its arguments to `onLetterClick` shifted by one.
- Nothing stops a caller from invoking handlers after the end of the game. In the source, the tray is off stage by then and receives no pointer events.
- src/index.js is not part of this model: asset loading and application bootstrap. Neither are the game's background sprite, the play-now pulse animation, the blocking layer, or the end screen's title sprite.

## Findings

| source | as written | input that shows it | evidently intended | confidence | as-written member | corrected member |
|---|---|---|---|---|---|---|
| src/eventHandlers.js:34-43 | The move handler walks the tray's children with `forEach` while `selectLetter` re-adds each selected sprite (`src/eventHandlers.js:89`). Re-adding moves the sprite to the end of the children, so the child after it slides into the index just visited and is never looked at. | Two letter sprites under the pointer and next to each other in child order, for example while a shuffle moves them across each other: only the first is selected. | Every letter sprite under the pointer that is not yet selected joins the selection. | not executed; medium (relies on the container re-adding a child at the end of its children) | Handlers.ForEachSkipsNextLetter | Handlers.ExtendSelects |
