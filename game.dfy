/**
 * The game scene: owns the letters, its own selection, the found words and
 * the grid, hands the grid and the same found-word list to the tray, shows
 * the selected letters, runs the inactivity timer and, at the end, swaps the
 * board for the end screen.
 */
module GameScene {
  import opened Wrappers
  import opened SeqFacts
  import opened Grid
  import opened Words
  import opened Tray
  import opened EndScreen

  /** Which callback the pending inactivity timeout runs. */
  datatype TimerKind =
    | GameTimer     // the game's own: shows the hint only
    | HandlerTimer  // the event handlers': shows the hint, then turns autoplay on

  /** The selected-letters display: blank (shown or hidden), or a word on a background of some width. */
  datatype Display = Blank(visible: bool) | Shown(text: string, width: int)

  /** The container of one inactivity message, reading "Connect the letters" and the hint word. */
  class HintMessage {
    const text: string

    constructor (text: string)
      ensures this.text == text
    {
      this.text := text;
    }
  }

  /** One hand sprite pointing along the hint word. */
  class HandSprite {
    constructor () {}
  }

  /** The messages left on stage once the referenced message `m`, if any, is removed from the scene. */
  function RemoveMessage(stage: seq<HintMessage>, m: HintMessage?): seq<HintMessage> {
    if m == null then stage else Without<HintMessage>(stage, m)
  }

  /** The hands left on stage once the referenced hand `h`, if any, is removed from the scene. */
  function RemoveHand(stage: seq<HandSprite>, h: HandSprite?): seq<HandSprite> {
    if h == null then stage else Without<HandSprite>(stage, h)
  }

  /** The play-now banner's height before the end screen lifts it. */
  const PlayNowTop: int := 750

  class Game {
    /** The game's letters, split from "G,O,D,L". */
    const letters: seq<char>
    /** The game's own `selectedLetters`, filled by autoplay and cleared by timer resets. */
    const selection: Selection
    const found: WordList
    const grid: WordGrid
    const tray: LetterTray
    var shouldCompleteAutomatically: bool
    /** The pending inactivity timeout, if any. */
    var timer: Option<TimerKind>
    /** The message the game refers to as its inactivity message, if any; it may already be off stage. */
    var message: HintMessage?
    /** The inactivity messages on stage, oldest first. */
    var messages: seq<HintMessage>
    /** The hand sprite the game refers to, if any. */
    var hand: HandSprite?
    /** The hand sprites on stage, oldest first. */
    var hands: seq<HandSprite>
    var display: Display
    /** Whether the tray and the grid are still on stage. */
    var onStage: bool
    var backgroundDimmed: bool
    var playNowY: int
    var endScene: EndGame?

    /**
     * The tray shares the grid and the found-word list but has its own
     * selection; found words are distinct dictionary words and the grid holds
     * exactly their letters; the game's selection names tray sprites; a shown
     * display is 30 units per letter plus 20 wide.
     */
    ghost predicate Valid()
      reads this, tray, tray.selection, selection, found, grid, endScene
    {
      && tray.grid == grid && tray.found == found && tray.selection != selection
      && tray.Valid() && grid.Valid()
      && WordsValid(found.words) && GridMatches(grid.cells, found.words)
      && SpritesBelow(selection.entries, |tray.letters|)
      && (display.Shown? ==> |display.text| > 0 && display.width == 30 * |display.text| + 20)
      && (endScene != null ==> endScene.Valid())
    }

    /** The initial scene: letters G, O, D, L, nothing selected or found, autoplay on, the game's inactivity timer running. */
    constructor ()
      ensures Valid()
      ensures letters == ['G', 'O', 'D', 'L'] && tray.letters == letters
      ensures tray.spriteText == letters && tray.spriteSlot == Slots(4) && tray.highlighted == Unlit(4)
      ensures !tray.dragging && tray.shuffleVisible
      ensures fresh(tray) && fresh(tray.selection) && fresh(selection) && fresh(grid) && fresh(found)
      ensures selection.entries == [] && tray.selection.entries == [] && found.words == []
      ensures shouldCompleteAutomatically
      ensures grid.cells == InitialCells()
      ensures timer == Some(GameTimer) && message == null && messages == [] && hand == null && hands == []
      ensures display == Blank(true) && onStage && !backgroundDimmed && playNowY == PlayNowTop && endScene == null
    {
      var letters := ['G', 'O', 'D', 'L'];
      var foundWords := new WordList();
      var wordGrid := new WordGrid();
      this.letters := letters;
      selection := new Selection();
      found := foundWords;
      grid := wordGrid;
      shouldCompleteAutomatically := true;
      tray := new LetterTray(letters, wordGrid, foundWords);
      message := null;
      messages := [];
      timer := None;
      hand := null;
      hands := [];
      display := Blank(true);
      onStage := true;
      backgroundDimmed := false;
      playNowY := PlayNowTop;
      endScene := null;
      new;
      InitialGridMatches();
      StartInactivityTimer();
    }

    /** Hides the display for an absent or empty selection, otherwise shows the selected word on a background sized to it. */
    method UpdateSelectedLettersDisplay(selected: Option<seq<Entry>>)
      requires Valid()
      modifies this`display
      ensures Valid()
      ensures selected.None? || selected.value == [] ==> display == Blank(false)
      ensures selected.Some? && selected.value != [] ==>
        display == Shown(SelectedWord(selected.value), |selected.value| * 30 + 20)
    {
      if selected.None? || |selected.value| == 0 {
        display := Blank(false);
        return;
      }
      var width := |selected.value| * 30 + 20;
      var selectedText := SelectedWord(selected.value);
      display := Shown(selectedText, width);
    }

    /** Restarts the game's own inactivity timeout, which will only show the hint; autoplay is left as it is. */
    method StartInactivityTimer()
      modifies this`timer
      ensures timer == Some(GameTimer)
    {
      timer := Some(GameTimer);
    }

    /**
     * The end of the game: takes the tray and the grid off stage, dims the
     * background, lifts the play-now banner by 150 and starts the end screen.
     */
    method OnGameEnd()
      requires Valid()
      modifies this`onStage, this`backgroundDimmed, this`playNowY, this`endScene
      ensures Valid()
      ensures !onStage && backgroundDimmed && playNowY == old(playNowY) - 150
      ensures endScene != null && fresh(endScene) && endScene.frameIndex == IndexAfter(1)
    {
      onStage := false;
      backgroundDimmed := true;
      playNowY := playNowY - 150;
      endScene := new EndGame();
    }

    /**
     * The game's word check: the shared check, then the end of the game at
     * once whenever four words are found, whether or not this check found
     * the fourth.
     */
    method CheckWord(selected: seq<Entry>) returns (flights: seq<Flight>, scheduleEnd: bool, ended: bool)
      requires Valid()
      modifies grid, found, this`onStage, this`backgroundDimmed, this`playNowY, this`endScene
      ensures Valid()
      ensures found.words == Record(old(found.words), SelectedWord(selected))
      ensures grid.cells == if Accepts(old(found.words), SelectedWord(selected))
                            then CommitWord(old(grid.cells), SelectedWord(selected))
                            else old(grid.cells)
      ensures flights == if Accepts(old(found.words), SelectedWord(selected)) then Flights(selected) else []
      ensures scheduleEnd <==> Accepts(old(found.words), SelectedWord(selected)) && |found.words| == 4
      ensures ended <==> |found.words| == 4
      ensures ended ==> && !onStage && backgroundDimmed && playNowY == old(playNowY) - 150
                        && endScene != null && fresh(endScene) && endScene.frameIndex == IndexAfter(1)
      ensures !ended ==> && onStage == old(onStage) && backgroundDimmed == old(backgroundDimmed)
                         && playNowY == old(playNowY) && endScene == old(endScene)
    {
      RecordValid(found.words, SelectedWord(selected));
      flights, scheduleEnd := Words.CheckWord(selected, grid, found);
      ended := false;
      if |found.words| == 4 {
        OnGameEnd();
        ended := true;
      }
    }
  }

  /** Once the game holds four found words, the grid shows the whole solved board. */
  lemma FourWordsSolveBoard(g: Game)
    requires g.Valid() && |g.found.words| == 4
    ensures g.grid.cells == SolvedCells()
  {
    FourFoundAreAll(g.found.words);
    AllFoundSolved(g.grid.cells, g.found.words);
  }

  /** A valid game never holds more than four found words. */
  lemma AtMostFourWords(g: Game)
    requires g.Valid()
    ensures |g.found.words| <= 4
  {
    FoundBound(g.found.words);
  }
}
