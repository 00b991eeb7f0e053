/**
 * The tray's input listeners: a press on a letter, a move over the letters,
 * a release on or off a letter, and a press on the shuffle button, each
 * routed into the event handlers and followed by the display update and
 * the timer changes the listener makes itself.
 */
module TrayInput {
  import opened Wrappers
  import opened Grid
  import opened Words
  import opened Tray
  import opened GameScene
  import opened Handlers

  /**
   * A press on a letter sprite: the shuffle button hides, the tray selection
   * becomes just that letter, the display shows it, and the inactivity timer
   * is reset with autoplay off.
   */
  method PointerDown(g: Game, sprite: nat)
    requires g.Valid() && sprite < |g.tray.letters|
    modifies g`shouldCompleteAutomatically, g`timer, g`message, g`messages, g`hand, g`hands, g`display
    modifies g.tray`highlighted, g.tray`dragging, g.tray`shuffleVisible, g.tray.selection, g.selection
    ensures g.Valid()
    ensures g.tray.selection.entries == [Entry(g.tray.spriteText[sprite], sprite)]
    ensures g.tray.dragging && !g.tray.shuffleVisible && !g.shouldCompleteAutomatically
    ensures g.display == Shown([g.tray.spriteText[sprite]], 50)
    ensures g.selection.entries == [] && g.timer.None? && g.message == null && g.hand == null
    ensures g.messages == RemoveMessage(old(g.messages), old(g.message))
    ensures g.hands == RemoveHand(old(g.hands), old(g.hand))
    ensures forall j :: 0 <= j < |g.tray.highlighted| ==>
      g.tray.highlighted[j] == (j == sprite || (old(g.tray.highlighted[j]) && !Mentions(old(g.selection.entries), j)))
  {
    g.tray.shuffleVisible := false;
    OnLetterClick(g, sprite);
    g.UpdateSelectedLettersDisplay(Some(g.tray.selection.entries));
    ResetInactivityTimer(g, Some(g.tray.selection.entries[0].letter));
    g.shouldCompleteAutomatically := false;
  }

  /** A move over the letters: the drag extends the tray selection, and the display shows it. */
  method PointerMove(g: Game, under: seq<nat>)
    requires g.Valid()
    requires forall k :: 0 <= k < |under| ==> under[k] < |g.tray.letters|
    modifies g.tray`highlighted, g.tray.selection, g`display
    ensures g.Valid()
    ensures g.tray.dragging ==> g.tray.selection.entries == Extend(old(g.tray.selection.entries), under, g.tray.spriteText)
    ensures !g.tray.dragging ==> g.tray.selection.entries == old(g.tray.selection.entries) && g.tray.highlighted == old(g.tray.highlighted)
    ensures g.tray.dragging ==> forall j :: 0 <= j < |g.tray.highlighted| ==>
      g.tray.highlighted[j] == (old(g.tray.highlighted[j]) || (j in under && !Mentions(old(g.tray.selection.entries), j)))
    ensures g.tray.selection.entries == [] ==> g.display == Blank(false)
    ensures g.tray.selection.entries != [] ==>
      g.display == Shown(SelectedWord(g.tray.selection.entries), |g.tray.selection.entries| * 30 + 20)
  {
    OnLetterMove(g, under);
    g.UpdateSelectedLettersDisplay(Some(g.tray.selection.entries));
  }

  /**
   * A release, on a letter or outside it (both listeners do the same): the
   * drag ends with the word checked, the display is updated, and the
   * handlers' inactivity timer starts.
   */
  method PointerUp(g: Game) returns (flights: seq<Flight>, scheduleEnd: bool)
    requires g.Valid()
    modifies g.tray`dragging, g.tray`highlighted, g.tray`shuffleVisible, g.tray.selection, g.grid, g.found
    modifies g`display, g`timer
    ensures g.Valid()
    ensures old(g.tray.dragging) ==>
      var word := SelectedWord(old(g.tray.selection.entries));
      && !g.tray.dragging
      && g.found.words == Record(old(g.found.words), word)
      && g.grid.cells == (if Accepts(old(g.found.words), word) then CommitWord(old(g.grid.cells), word) else old(g.grid.cells))
      && (scheduleEnd <==> Accepts(old(g.found.words), word) && |g.found.words| == 4)
      && flights == (if Accepts(old(g.found.words), word) then Flights(old(g.tray.selection.entries)) else [])
      && g.tray.selection.entries == [] && g.display == Blank(false) && g.tray.shuffleVisible
      && forall j :: 0 <= j < |g.tray.highlighted| ==>
           g.tray.highlighted[j] == (old(g.tray.highlighted[j]) && !Mentions(old(g.tray.selection.entries), j))
    ensures !old(g.tray.dragging) ==>
      && !g.tray.dragging
      && g.found.words == old(g.found.words) && g.grid.cells == old(g.grid.cells)
      && g.tray.selection.entries == old(g.tray.selection.entries)
      && g.tray.highlighted == old(g.tray.highlighted) && g.tray.shuffleVisible == old(g.tray.shuffleVisible)
      && flights == [] && !scheduleEnd
      && (g.tray.selection.entries == [] ==> g.display == Blank(false))
      && (g.tray.selection.entries != [] ==>
            g.display == Shown(SelectedWord(g.tray.selection.entries), |g.tray.selection.entries| * 30 + 20))
    ensures g.timer == Some(HandlerTimer)
    ensures g.shouldCompleteAutomatically == old(g.shouldCompleteAutomatically)
  {
    flights, scheduleEnd := OnLetterRelease(g);
    g.UpdateSelectedLettersDisplay(Some(g.tray.selection.entries));
    StartInactivityTimer(g);
  }

  /**
   * A press on the shuffle button: the letters are shuffled, the timer is
   * reset with no clicked letter, autoplay is off, and the handlers'
   * inactivity timer starts; autoplay stays off until that timer fires.
   */
  method ShufflePressed(g: Game, candidates: seq<seq<char>>) returns (accepted: Option<seq<char>>)
    requires g.Valid()
    requires forall k :: 0 <= k < |candidates| ==> multiset(candidates[k]) == multiset(g.tray.letters)
    modifies g.tray`letters, g.tray`spriteSlot, g.tray`highlighted, g.selection
    modifies g`timer, g`message, g`messages, g`hand, g`hands, g`shouldCompleteAutomatically
    ensures g.Valid()
    ensures accepted == FirstChange(old(g.tray.letters), candidates)
    ensures accepted.Some? ==> g.tray.letters == accepted.value && g.tray.Arranged()
    ensures accepted.None? ==> g.tray.letters == old(g.tray.letters) && g.tray.spriteSlot == old(g.tray.spriteSlot)
    ensures !g.shouldCompleteAutomatically && g.timer == Some(HandlerTimer)
    ensures g.selection.entries == [] && g.message == null && g.hand == null
    ensures g.messages == RemoveMessage(old(g.messages), old(g.message))
    ensures g.hands == RemoveHand(old(g.hands), old(g.hand))
    ensures forall j :: 0 <= j < |g.tray.highlighted| ==>
      g.tray.highlighted[j] == (old(g.tray.highlighted[j]) && !Mentions(old(g.selection.entries), j))
  {
    accepted := g.tray.ShuffleLetters(candidates);
    ResetInactivityTimer(g, None);
    g.shouldCompleteAutomatically := false;
    StartInactivityTimer(g);
  }

  /** Passing over a single sprite selects it unless the selection names it already. */
  lemma ExtendOne(entries: seq<Entry>, u: nat, texts: seq<char>)
    requires u < |texts|
    ensures Extend(entries, [u], texts) == if Mentions(entries, u) then entries else entries + [Entry(texts[u], u)]
  {
    assert [u][..0] == [];
  }

  /** The selection G, O, D of the initial tray spells GOD, whose letters fly down the first column. */
  lemma GodFlights()
    ensures var sel := [Entry('G', 0), Entry('O', 1), Entry('D', 2)];
      && SelectedWord(sel) == "GOD"
      && Flights(sel) == [Flight(0, 105, 120), Flight(1, 105, 210), Flight(2, 105, 300)]
  {
    var sel := [Entry('G', 0), Entry('O', 1), Entry('D', 2)];
    var w := SelectedWord(sel);
    assert w == "GOD";
    assert ValidWords[w] == [Pos(0, 0), Pos(1, 0), Pos(2, 0)];
    var fl := Flights(sel);
    assert fl[0] == Flight(0, 105, 120) && fl[1] == Flight(1, 105, 210) && fl[2] == Flight(2, 105, 300);
  }

  /** A drag that moves over the single sprite `u` selects it, unless it is already selected. */
  method DragOver(g: Game, u: nat)
    requires g.Valid() && g.tray.dragging && u < |g.tray.letters|
    modifies g.tray`highlighted, g.tray.selection, g`display
    ensures g.Valid() && g.tray.dragging
    ensures g.tray.spriteText == old(g.tray.spriteText) && g.found.words == old(g.found.words)
    ensures g.tray.selection.entries == if Mentions(old(g.tray.selection.entries), u) then old(g.tray.selection.entries)
                                        else old(g.tray.selection.entries) + [Entry(g.tray.spriteText[u], u)]
  {
    PointerMove(g, [u]);
    ExtendOne(old(g.tray.selection.entries), u, g.tray.spriteText);
  }

  /** Releasing the drag G, O, D before any word is found finds GOD. */
  method ReleaseGod(g: Game) returns (flights: seq<Flight>, scheduleEnd: bool)
    requires g.Valid() && g.tray.dragging && g.found.words == []
    requires g.tray.selection.entries == [Entry('G', 0), Entry('O', 1), Entry('D', 2)]
    modifies g.tray`dragging, g.tray`highlighted, g.tray`shuffleVisible, g.tray.selection, g.grid, g.found
    modifies g`display, g`timer
    ensures g.Valid()
    ensures g.found.words == ["GOD"] && !scheduleEnd
    ensures flights == [Flight(0, 105, 120), Flight(1, 105, 210), Flight(2, 105, 300)]
    ensures g.tray.selection.entries == [] && !g.tray.dragging && g.tray.shuffleVisible
  {
    GodFlights();
    assert Accepts([], "GOD");
    flights, scheduleEnd := PointerUp(g);
  }

  /** A new scene in which the player has just pressed G. */
  method PressG() returns (g: Game)
    ensures fresh(g) && fresh(g.tray) && fresh(g.tray.selection) && fresh(g.selection) && fresh(g.grid) && fresh(g.found)
    ensures g.Valid() && g.tray.dragging && g.tray.spriteText == "GODL" && g.tray.letters == "GODL"
    ensures g.tray.selection.entries == [Entry('G', 0)] && g.found.words == []
  {
    g := new Game();
    PointerDown(g, 0);
  }

  /** A new scene in which the player has pressed G and dragged over O. */
  method DragGo() returns (g: Game)
    ensures fresh(g) && fresh(g.tray) && fresh(g.tray.selection) && fresh(g.selection) && fresh(g.grid) && fresh(g.found)
    ensures g.Valid() && g.tray.dragging && g.tray.spriteText == "GODL" && g.found.words == []
    ensures g.tray.selection.entries == [Entry('G', 0), Entry('O', 1)]
  {
    g := PressG();
    DragOver(g, 1);
  }

  /** A new scene in which the player has pressed G and dragged over O and then D. */
  method DragGod() returns (g: Game)
    ensures fresh(g) && fresh(g.tray) && fresh(g.tray.selection) && fresh(g.selection) && fresh(g.grid) && fresh(g.found)
    ensures g.Valid() && g.tray.dragging && g.found.words == []
    ensures g.tray.selection.entries == [Entry('G', 0), Entry('O', 1), Entry('D', 2)]
  {
    g := DragGo();
    var before := g.tray.selection.entries;
    assert !Mentions(before, 2) by {
      assert before[0].sprite == 0 && before[1].sprite == 1;
    }
    DragOver(g, 2);
    assert g.tray.selection.entries == before + [Entry('D', 2)];
  }

  /**
   * From the initial scene, pressing G, dragging over O and then D and
   * releasing finds GOD: its three letters fly down the first column and the
   * end of the game is not scheduled.
   */
  method SpellGod() returns (g: Game, flights: seq<Flight>, scheduleEnd: bool)
    ensures g.Valid()
    ensures g.found.words == ["GOD"] && !scheduleEnd
    ensures flights == [Flight(0, 105, 120), Flight(1, 105, 210), Flight(2, 105, 300)]
    ensures g.tray.selection.entries == [] && !g.tray.dragging && g.tray.shuffleVisible
  {
    g := DragGod();
    flights, scheduleEnd := ReleaseGod(g);
  }
}
