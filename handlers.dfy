/**
 * The event handlers: selecting letters by click and drag, releasing to check
 * the word, clearing selections, the inactivity timer, and the hint with its
 * scripted autoplay. Every timeout and animation callback is a method that
 * the caller invokes when the callback would fire.
 */
module Handlers {
  import opened Wrappers
  import opened SeqFacts
  import opened Words
  import opened Tray
  import opened GameScene

  /** `clearSelectedLetters` keeps a sprite's style when a clicked letter is given and the sprite shows that letter. */
  predicate KeepsStyle(keep: Option<char>, text: char) {
    keep.Some? && keep.value == text
  }

  /** Highlights sprite `sprite` and appends it, with the text it shows now, to `sel`. */
  method SelectLetter(sprite: nat, sel: Selection, tray: LetterTray)
    requires sprite < |tray.highlighted| && |tray.spriteText| == |tray.highlighted|
    modifies tray`highlighted, sel
    ensures tray.highlighted == old(tray.highlighted)[sprite := true]
    ensures sel.entries == old(sel.entries) + [Entry(tray.spriteText[sprite], sprite)]
  {
    tray.highlighted := tray.highlighted[sprite := true];
    sel.entries := sel.entries + [Entry(tray.spriteText[sprite], sprite)];
  }

  /**
   * Empties `sel`, resetting the style of every sprite it names except one
   * that shows the clicked letter `keep`; other sprites keep their style.
   */
  method ClearSelectedLetters(tray: LetterTray, sel: Selection, keep: Option<char>)
    requires |tray.spriteText| == |tray.highlighted|
    requires SpritesBelow(sel.entries, |tray.highlighted|)
    modifies tray`highlighted, sel
    ensures sel.entries == []
    ensures |tray.highlighted| == |old(tray.highlighted)|
    ensures forall j :: 0 <= j < |tray.highlighted| ==>
      tray.highlighted[j] == if Mentions(old(sel.entries), j) && !KeepsStyle(keep, tray.spriteText[j])
                             then false else old(tray.highlighted[j])
  {
    var selectedLetters := sel.entries;
    for i := 0 to |selectedLetters|
      invariant |tray.highlighted| == |old(tray.highlighted)|
      invariant forall j :: 0 <= j < |tray.highlighted| ==>
        tray.highlighted[j] == if Mentions(selectedLetters[..i], j) && !KeepsStyle(keep, tray.spriteText[j])
                               then false else old(tray.highlighted[j])
    {
      var letterText := selectedLetters[i].sprite;
      if !KeepsStyle(keep, tray.spriteText[letterText]) {
        tray.highlighted := tray.highlighted[letterText := false];
      }
      assert selectedLetters[..i + 1] == selectedLetters[..i] + [selectedLetters[i]];
      forall j | 0 <= j < |tray.highlighted|
        ensures Mentions(selectedLetters[..i + 1], j) <==> Mentions(selectedLetters[..i], j) || j == letterText
      {
        if Mentions(selectedLetters[..i + 1], j) {
          var k :| 0 <= k < i + 1 && selectedLetters[..i + 1][k].sprite == j;
          if k < i {
            assert selectedLetters[..i][k].sprite == j;
          }
        }
        if j == letterText {
          assert selectedLetters[..i + 1][i].sprite == j;
        }
        if Mentions(selectedLetters[..i], j) {
          var k :| 0 <= k < i && selectedLetters[..i][k].sprite == j;
          assert selectedLetters[..i + 1][k].sprite == j;
        }
      }
    }
    assert selectedLetters[..|selectedLetters|] == selectedLetters;
    sel.entries := [];
  }

  /** The tray selection after the pointer passes over the sprites `under`, in order: each one not yet selected is appended. */
  function Extend(entries: seq<Entry>, under: seq<nat>, texts: seq<char>): seq<Entry>
    requires forall k :: 0 <= k < |under| ==> under[k] < |texts|
    decreases |under|
  {
    if under == [] then entries
    else
      var before := Extend(entries, under[..|under| - 1], texts);
      var u := under[|under| - 1];
      if Mentions(before, u) then before else before + [Entry(texts[u], u)]
  }

  /**
   * Moving only appends; afterwards the selection names exactly the sprites
   * it named before and the sprites passed over, each at most once, and
   * every appended entry carries the text of its sprite.
   */
  lemma {:induction false} ExtendSelects(entries: seq<Entry>, under: seq<nat>, texts: seq<char>)
    requires forall k :: 0 <= k < |under| ==> under[k] < |texts|
    requires DistinctSprites(entries) && SpritesBelow(entries, |texts|)
    ensures var r := Extend(entries, under, texts);
      && entries <= r
      && DistinctSprites(r) && SpritesBelow(r, |texts|)
      && (forall j :: Mentions(r, j) <==> Mentions(entries, j) || j in under)
      && (forall i :: |entries| <= i < |r| ==> r[i].letter == texts[r[i].sprite])
    decreases |under|
  {
    if under != [] {
      var init := under[..|under| - 1];
      var u := under[|under| - 1];
      ExtendSelects(entries, init, texts);
      var before := Extend(entries, init, texts);
      assert under == init + [u];
      var r := Extend(entries, under, texts);
      if !Mentions(before, u) {
        assert r == before + [Entry(texts[u], u)];
        forall j
          ensures Mentions(r, j) <==> Mentions(before, j) || j == u
        {
          if Mentions(r, j) {
            var k :| 0 <= k < |r| && r[k].sprite == j;
            if k < |before| {
              assert before[k].sprite == j;
            }
          }
          if Mentions(before, j) {
            var k :| 0 <= k < |before| && before[k].sprite == j;
            assert r[k].sprite == j;
          }
          if j == u {
            assert r[|before|].sprite == j;
          }
        }
      }
    }
  }

  /** However the pointer moves, a selection that never names a sprite twice holds at most one entry per sprite. */
  lemma ExtendBound(entries: seq<Entry>, under: seq<nat>, texts: seq<char>)
    requires forall k :: 0 <= k < |under| ==> under[k] < |texts|
    requires DistinctSprites(entries) && SpritesBelow(entries, |texts|)
    ensures |Extend(entries, under, texts)| <= |texts|
  {
    ExtendSelects(entries, under, texts);
    SelectionBound(Extend(entries, under, texts), |texts|);
  }

  /**
   * A child of the tray container, in the container's child order: a letter
   * sprite, or anything else (the tray background, the shuffle button, the
   * line container, a selection circle).
   */
  datatype Child = Letter(sprite: nat) | Decoration

  /**
   * The tray selection that the move handler's `forEach` over the tray's
   * children builds as written, from index `k` up to the `bound` fixed when
   * the iteration started. Selecting a sprite appends its circle and adds
   * the sprite again, which moves the sprite from index `k` to the end; the
   * child after it slides into index `k`, which has already been visited.
   */
  function ForEachSelect(children: seq<Child>, k: nat, bound: nat, entries: seq<Entry>, under: set<nat>, texts: seq<char>): seq<Entry>
    requires forall i :: 0 <= i < |children| && children[i].Letter? ==> children[i].sprite < |texts|
    decreases bound - k
  {
    if k >= bound || k >= |children| then entries
    else
      var child := children[k];
      if child.Letter? && child.sprite in under && !Mentions(entries, child.sprite) then
        var moved := children[..k] + children[k + 1..] + [Decoration, child];
        assert forall i :: 0 <= i < |moved| && moved[i].Letter? ==> moved[i].sprite < |texts| by {
          forall i | 0 <= i < |moved| && moved[i].Letter?
            ensures moved[i].sprite < |texts|
          {
            if i < k {
              assert moved[i] == children[i];
            } else if i < |children| - 1 {
              assert moved[i] == children[i + 1];
            }
          }
        }
        ForEachSelect(moved, k + 1, bound, entries + [Entry(texts[child.sprite], child.sprite)], under, texts)
      else
        ForEachSelect(children, k + 1, bound, entries, under, texts)
  }

  /**
   * Two letter sprites under the pointer and next to each other in child
   * order: as written, the move handler selects only the first, while the
   * intended extension selects both.
   */
  lemma ForEachSkipsNextLetter()
    ensures ForEachSelect([Letter(0), Letter(1)], 0, 2, [], {0, 1}, "GO") == [Entry('G', 0)]
    ensures Extend([], [0, 1], "GO") == [Entry('G', 0), Entry('O', 1)]
  {
    var children: seq<Child> := [Letter(0), Letter(1)];
    var moved := children[..0] + children[1..] + [Decoration, Letter(0)];
    assert moved == [Letter(1), Decoration, Letter(0)];
    assert ForEachSelect(children, 0, 2, [], {0, 1}, "GO") == ForEachSelect(moved, 1, 2, [Entry('G', 0)], {0, 1}, "GO");
    assert [Entry('G', 0)][0].sprite == 0;
    assert [0, 1][..1] == [0];
    assert Extend([], [0], "GO") == [Entry('G', 0)];
  }

  /** Sprites showing distinct letters: a letter identifies its sprite. */
  lemma DistinctTexts(tray: LetterTray)
    requires tray.Valid()
    ensures NoDup(tray.spriteText)
  {
    NoDupPermutation(tray.letters, tray.spriteText);
  }

  /** Takes the message and the hand the game refers to off stage and forgets them; other ones stay. */
  method TakeDownHint(g: Game)
    requires g.Valid()
    modifies g`message, g`messages, g`hand, g`hands
    ensures g.Valid()
    ensures g.message == null && g.hand == null
    ensures g.messages == RemoveMessage(old(g.messages), old(g.message))
    ensures g.hands == RemoveHand(old(g.hands), old(g.hand))
  {
    if g.message != null {
      g.messages := RemoveMessage(g.messages, g.message);
      g.message := null;
    }
    if g.hand != null {
      g.hands := RemoveHand(g.hands, g.hand);
      g.hand := null;
    }
  }

  /**
   * Cancels the pending inactivity timeout, takes down the hint, turns
   * autoplay off and clears the game's own selection, keeping the style of
   * a sprite that shows the clicked letter.
   */
  method ResetInactivityTimer(g: Game, keep: Option<char>)
    requires g.Valid()
    modifies g`timer, g`message, g`messages, g`hand, g`hands, g`shouldCompleteAutomatically, g.tray`highlighted, g.selection
    ensures g.Valid()
    ensures g.timer.None? && g.message == null && g.hand == null && !g.shouldCompleteAutomatically
    ensures g.messages == RemoveMessage(old(g.messages), old(g.message))
    ensures g.hands == RemoveHand(old(g.hands), old(g.hand))
    ensures g.selection.entries == []
    ensures forall j :: 0 <= j < |g.tray.highlighted| ==>
      g.tray.highlighted[j] == if Mentions(old(g.selection.entries), j) && !KeepsStyle(keep, g.tray.spriteText[j])
                               then false else old(g.tray.highlighted[j])
  {
    g.timer := None;
    TakeDownHint(g);
    g.shouldCompleteAutomatically := false;
    ClearSelectedLetters(g.tray, g.selection, keep);
  }

  /** Restarts the inactivity timeout with the handlers' callback, which will show the hint and turn autoplay on. */
  method StartInactivityTimer(g: Game)
    modifies g`timer
    ensures g.timer == Some(HandlerTimer)
  {
    g.timer := Some(HandlerTimer);
  }

  /**
   * A click on a tray letter: autoplay off, the tray selection restarted
   * with just that letter, dragging on, and the inactivity timer reset,
   * which clears the game's own selection but keeps the clicked letter lit.
   */
  method OnLetterClick(g: Game, sprite: nat)
    requires g.Valid() && sprite < |g.tray.letters|
    modifies g`shouldCompleteAutomatically, g`timer, g`message, g`messages, g`hand, g`hands
    modifies g.tray`highlighted, g.tray`dragging, g.tray.selection, g.selection
    ensures g.Valid()
    ensures g.tray.selection.entries == [Entry(g.tray.spriteText[sprite], sprite)]
    ensures g.tray.dragging && !g.shouldCompleteAutomatically
    ensures g.selection.entries == [] && g.timer.None? && g.message == null && g.hand == null
    ensures g.messages == RemoveMessage(old(g.messages), old(g.message))
    ensures g.hands == RemoveHand(old(g.hands), old(g.hand))
    ensures forall j :: 0 <= j < |g.tray.highlighted| ==>
      g.tray.highlighted[j] == (j == sprite || (old(g.tray.highlighted[j]) && !Mentions(old(g.selection.entries), j)))
  {
    g.shouldCompleteAutomatically := false;
    g.tray.selection.entries := [];
    SelectLetter(sprite, g.tray.selection, g.tray);
    g.tray.dragging := true;
    DistinctTexts(g.tray);
    ResetInactivityTimer(g, Some(g.tray.selection.entries[0].letter));
  }

  /**
   * A pointer move while dragging: every letter sprite under the pointer,
   * in the order given, that the tray selection does not name yet is
   * selected. Without dragging nothing happens.
   */
  method OnLetterMove(g: Game, under: seq<nat>)
    requires g.Valid()
    requires forall k :: 0 <= k < |under| ==> under[k] < |g.tray.letters|
    modifies g.tray`highlighted, g.tray.selection
    ensures g.Valid()
    ensures !g.tray.dragging ==> g.tray.selection.entries == old(g.tray.selection.entries) && g.tray.highlighted == old(g.tray.highlighted)
    ensures g.tray.dragging ==> g.tray.selection.entries == Extend(old(g.tray.selection.entries), under, g.tray.spriteText)
    ensures g.tray.dragging ==> forall j :: 0 <= j < |g.tray.highlighted| ==>
      g.tray.highlighted[j] == (old(g.tray.highlighted[j]) || (j in under && !Mentions(old(g.tray.selection.entries), j)))
  {
    if !g.tray.dragging {
      return;
    }
    var selectedLetters := g.tray.selection;
    ghost var start := selectedLetters.entries;
    for k := 0 to |under|
      invariant selectedLetters.entries == Extend(start, under[..k], g.tray.spriteText)
      invariant DistinctSprites(selectedLetters.entries) && SpritesBelow(selectedLetters.entries, |g.tray.letters|)
      invariant |g.tray.highlighted| == |g.tray.letters|
      invariant forall j :: 0 <= j < |g.tray.highlighted| ==>
        g.tray.highlighted[j] == (old(g.tray.highlighted[j]) || (j in under[..k] && !Mentions(start, j)))
    {
      var child := under[k];
      assert under[..k + 1][..k] == under[..k];
      ExtendSelects(start, under[..k], g.tray.spriteText);
      if !Mentions(selectedLetters.entries, child) {
        SelectLetter(child, selectedLetters, g.tray);
      }
      ExtendSelects(start, under[..k + 1], g.tray.spriteText);
      assert under[..k + 1] == under[..k] + [child];
    }
    assert under[..|under|] == under;
  }

  /**
   * The end of a drag: dragging off, the selected word checked once, the
   * tray selection emptied with every selected sprite back to the default
   * style, and the shuffle button shown. Without dragging nothing happens.
   */
  method OnLetterRelease(g: Game) returns (flights: seq<Flight>, scheduleEnd: bool)
    requires g.Valid()
    modifies g.tray`dragging, g.tray`highlighted, g.tray`shuffleVisible, g.tray.selection, g.grid, g.found
    ensures g.Valid()
    ensures !old(g.tray.dragging) ==>
      && !g.tray.dragging
      && g.found.words == old(g.found.words) && g.grid.cells == old(g.grid.cells)
      && g.tray.selection.entries == old(g.tray.selection.entries)
      && g.tray.highlighted == old(g.tray.highlighted) && g.tray.shuffleVisible == old(g.tray.shuffleVisible)
      && flights == [] && !scheduleEnd
    ensures old(g.tray.dragging) ==>
      var word := SelectedWord(old(g.tray.selection.entries));
      && !g.tray.dragging
      && g.found.words == Record(old(g.found.words), word)
      && g.grid.cells == (if Accepts(old(g.found.words), word) then CommitWord(old(g.grid.cells), word) else old(g.grid.cells))
      && (scheduleEnd <==> Accepts(old(g.found.words), word) && |g.found.words| == 4)
      && flights == (if Accepts(old(g.found.words), word) then Flights(old(g.tray.selection.entries)) else [])
      && g.tray.selection.entries == [] && g.tray.shuffleVisible
      && forall j :: 0 <= j < |g.tray.highlighted| ==>
           g.tray.highlighted[j] == (old(g.tray.highlighted[j]) && !Mentions(old(g.tray.selection.entries), j))
  {
    flights := [];
    scheduleEnd := false;
    if !g.tray.dragging {
      return;
    }
    g.tray.dragging := false;
    RecordValid(g.found.words, SelectedWord(g.tray.selection.entries));
    flights, scheduleEnd := Words.CheckWord(g.tray.selection.entries, g.grid, g.found);
    ClearSelectedLetters(g.tray, g.tray.selection, None);
    g.tray.selection.entries := [];
    g.tray.shuffleVisible := true;
  }

  /** The words the hint may still propose, in hint order. */
  function Unfound(words: seq<string>, found: seq<string>): (r: seq<string>)
    ensures forall w :: w in r <==> w in words && w !in found
  {
    if words == [] then []
    else if words[0] in found then Unfound(words[1..], found)
    else [words[0]] + Unfound(words[1..], found)
  }

  /** The hint word: the first remaining word, if any. */
  function NextHint(found: seq<string>): Option<string> {
    var remainingWords := Unfound(HintOrder, found);
    if |remainingWords| > 0 then Some(remainingWords[0]) else None
  }

  /** The first unfound word of a list is the first of its words that is not found. */
  lemma {:induction false} UnfoundFirst(words: seq<string>, found: seq<string>)
    ensures Unfound(words, found) != [] <==> exists k :: 0 <= k < |words| && words[k] !in found
    ensures Unfound(words, found) != [] ==>
      exists k :: 0 <= k < |words| && words[k] == Unfound(words, found)[0]
        && words[k] !in found && forall i :: 0 <= i < k ==> words[i] in found
  {
    if words != [] {
      UnfoundFirst(words[1..], found);
      if words[0] in found && Unfound(words, found) != [] {
        var k :| 0 <= k < |words[1..]| && words[1..][k] == Unfound(words[1..], found)[0]
          && words[1..][k] !in found && forall i :: 0 <= i < k ==> words[1..][i] in found;
        assert words[k + 1] == Unfound(words, found)[0];
      }
      if words[0] in found && (exists k :: 0 <= k < |words| && words[k] !in found) {
        var k :| 0 <= k < |words| && words[k] !in found;
        assert words[1..][k - 1] !in found;
      }
    }
  }

  /**
   * The hint proposes the first of GOLD, GOD, DOG, LOG not found yet, and
   * proposes nothing exactly when all four words have been found.
   */
  lemma NextHintIsFirstUnfound(found: seq<string>)
    requires WordsValid(found)
    ensures NextHint(found).None? <==> |found| == 4
    ensures NextHint(found).Some? ==>
      exists k :: 0 <= k < |HintOrder| && HintOrder[k] == NextHint(found).value
        && HintOrder[k] !in found && forall i :: 0 <= i < k ==> HintOrder[i] in found
  {
    UnfoundFirst(HintOrder, found);
    DictionaryKeys();
    FoundBound(found);
    if |found| == 4 {
      FourFoundAreAll(found);
      assert forall k :: 0 <= k < |HintOrder| ==> HintOrder[k] in found;
    }
    if NextHint(found).None? {
      assert ValidWords.Keys <= Elements(found);
      SubsetCard(ValidWords.Keys, Elements(found));
      NoDupCard(found);
    }
  }

  /** The hint's animation timeline: it plays three times, so it repeats twice. */
  class HintTimeline {
    const word: string
    const repeats: nat
    /** How many repeats have fired so far. */
    var counter: nat

    constructor (word: string)
      ensures this.word == word && repeats == 2 && counter == 0
    {
      this.word := word;
      repeats := 2;
      counter := 0;
    }
  }

  /**
   * Shows the hint for the first unfound word: a new message and a new hand
   * join the stage and become the ones the game refers to, and a timeline
   * starts. Messages and hands already on stage stay there. When every word
   * is found nothing is shown.
   */
  method ShowInactivityMessage(g: Game) returns (timeline: HintTimeline?)
    requires g.Valid()
    modifies g`message, g`messages, g`hand, g`hands
    ensures g.Valid()
    ensures NextHint(g.found.words).None? ==>
      && timeline == null && g.message == old(g.message) && g.messages == old(g.messages)
      && g.hand == old(g.hand) && g.hands == old(g.hands)
    ensures NextHint(g.found.words).Some? ==>
      && timeline != null && fresh(timeline)
      && timeline.word == NextHint(g.found.words).value && timeline.counter == 0 && timeline.repeats == 2
      && g.message != null && fresh(g.message) && g.message.text == "Connect the letters " + timeline.word
      && g.messages == old(g.messages) + [g.message]
      && g.hand != null && fresh(g.hand) && g.hands == old(g.hands) + [g.hand]
  {
    var remainingWords := Unfound(HintOrder, g.found.words);
    var nextWord := if |remainingWords| > 0 then remainingWords[0] else "";
    assert |remainingWords| > 0 ==> remainingWords[0] in HintOrder;
    timeline := null;
    if nextWord != "" {
      var inactivityMessage := new HintMessage("Connect the letters " + nextWord);
      g.message := inactivityMessage;
      g.messages := g.messages + [inactivityMessage];
      var handSprite := new HandSprite();
      g.hand := handSprite;
      g.hands := g.hands + [handSprite];
      timeline := new HintTimeline(nextWord);
    }
  }

  /**
   * The pending inactivity timeout fires: the hint is shown, and the
   * handlers' callback then turns autoplay on.
   */
  method FireInactivityTimer(g: Game) returns (timeline: HintTimeline?)
    requires g.Valid() && g.timer.Some?
    modifies g`timer, g`message, g`messages, g`hand, g`hands, g`shouldCompleteAutomatically
    ensures g.Valid()
    ensures g.timer.None?
    ensures g.shouldCompleteAutomatically == (old(g.timer) == Some(HandlerTimer) || old(g.shouldCompleteAutomatically))
    ensures NextHint(g.found.words).None? ==>
      && timeline == null && g.message == old(g.message) && g.messages == old(g.messages)
      && g.hand == old(g.hand) && g.hands == old(g.hands)
    ensures NextHint(g.found.words).Some? ==>
      && timeline != null && fresh(timeline) && timeline.word == NextHint(g.found.words).value
      && timeline.counter == 0 && timeline.repeats == 2
      && g.message != null && fresh(g.message) && g.message.text == "Connect the letters " + timeline.word
      && g.messages == old(g.messages) + [g.message]
      && g.hand != null && fresh(g.hand) && g.hands == old(g.hands) + [g.hand]
  {
    var kind := g.timer.value;
    g.timer := None;
    timeline := ShowInactivityMessage(g);
    if kind == HandlerTimer {
      g.shouldCompleteAutomatically := true;
    }
  }

  /**
   * One repeat of the hint timeline: the counter goes up, and autoplay
   * starts when it has reached the repeat count while autoplay is on.
   */
  method OnHintRepeat(g: Game, timeline: HintTimeline) returns (autoplay: bool)
    requires timeline.counter < timeline.repeats
    modifies timeline`counter, g`shouldCompleteAutomatically
    ensures timeline.counter == old(timeline.counter) + 1
    ensures autoplay <==> timeline.counter == timeline.repeats && g.shouldCompleteAutomatically
    ensures g.shouldCompleteAutomatically == old(g.shouldCompleteAutomatically)
  {
    timeline.counter := timeline.counter + 1;
    autoplay := timeline.repeats == timeline.counter && g.shouldCompleteAutomatically;
    if autoplay {
      g.shouldCompleteAutomatically := true;
    }
  }

  /**
   * A scripted autoplay step for letter `index` of the hint word: with
   * autoplay on, the sprite showing that letter joins the game's selection
   * and the display shows it; with autoplay off nothing happens.
   */
  method AutoplayStep(g: Game, word: string, index: nat)
    requires g.Valid() && index < |word|
    modifies g.tray`highlighted, g.selection, g`display
    ensures g.Valid()
    ensures !g.shouldCompleteAutomatically || word[index] !in g.tray.spriteText ==>
      g.selection.entries == old(g.selection.entries) && g.tray.highlighted == old(g.tray.highlighted)
      && g.display == old(g.display)
    ensures g.shouldCompleteAutomatically && word[index] in g.tray.spriteText ==>
      exists j :: 0 <= j < |g.tray.spriteText| && g.tray.spriteText[j] == word[index]
        && g.selection.entries == old(g.selection.entries) + [Entry(word[index], j)]
        && g.tray.highlighted == old(g.tray.highlighted)[j := true]
        && g.display == Shown(SelectedWord(g.selection.entries), |g.selection.entries| * 30 + 20)
  {
    if !g.shouldCompleteAutomatically {
      return;
    }
    var letter := word[index];
    var letterText := g.tray.FindSprite(letter);
    if letterText.Some? {
      SelectLetter(letterText.value, g.selection, g.tray);
      g.UpdateSelectedLettersDisplay(Some(g.selection.entries));
    }
  }

  /**
   * The first half of the last scripted step: the game's selection is
   * checked as a word, then emptied with every selected sprite back to the
   * default style (the clicked letter passed is the selection itself, which
   * names no letter).
   */
  method CheckAutoplayWord(g: Game) returns (flights: seq<Flight>, scheduleEnd: bool)
    requires g.Valid()
    modifies g.grid, g.found, g.tray`highlighted, g.selection
    ensures g.Valid()
    ensures var word := SelectedWord(old(g.selection.entries));
      && g.found.words == Record(old(g.found.words), word)
      && g.grid.cells == (if Accepts(old(g.found.words), word) then CommitWord(old(g.grid.cells), word) else old(g.grid.cells))
      && (scheduleEnd <==> Accepts(old(g.found.words), word) && |g.found.words| == 4)
      && flights == (if Accepts(old(g.found.words), word) then Flights(old(g.selection.entries)) else [])
    ensures g.selection.entries == []
    ensures forall j :: 0 <= j < |g.tray.highlighted| ==>
      g.tray.highlighted[j] == (old(g.tray.highlighted[j]) && !Mentions(old(g.selection.entries), j))
  {
    RecordValid(g.found.words, SelectedWord(g.selection.entries));
    flights, scheduleEnd := Words.CheckWord(g.selection.entries, g.grid, g.found);
    ClearSelectedLetters(g.tray, g.selection, None);
  }

  /**
   * The last scripted step: the autoplayed word is checked and the game's
   * selection cleared; only if autoplay is still on are the shuffle button
   * shown, the display hidden and the referenced message taken off stage
   * (the game still refers to it), and the next hint scheduled when a word
   * remains.
   */
  method AutoplayFinish(g: Game) returns (flights: seq<Flight>, scheduleEnd: bool, scheduleNextHint: bool)
    requires g.Valid()
    modifies g.grid, g.found, g.tray`highlighted, g.tray`shuffleVisible, g.selection, g`display, g`messages
    ensures g.Valid()
    ensures var word := SelectedWord(old(g.selection.entries));
      && g.found.words == Record(old(g.found.words), word)
      && g.grid.cells == (if Accepts(old(g.found.words), word) then CommitWord(old(g.grid.cells), word) else old(g.grid.cells))
      && (scheduleEnd <==> Accepts(old(g.found.words), word) && |g.found.words| == 4)
      && flights == (if Accepts(old(g.found.words), word) then Flights(old(g.selection.entries)) else [])
    ensures g.selection.entries == []
    ensures forall j :: 0 <= j < |g.tray.highlighted| ==>
      g.tray.highlighted[j] == (old(g.tray.highlighted[j]) && !Mentions(old(g.selection.entries), j))
    ensures !g.shouldCompleteAutomatically ==>
      && g.tray.shuffleVisible == old(g.tray.shuffleVisible) && g.display == old(g.display)
      && g.messages == old(g.messages) && !scheduleNextHint
    ensures g.shouldCompleteAutomatically ==>
      && g.tray.shuffleVisible && g.display == Blank(false)
      && g.messages == RemoveMessage(old(g.messages), g.message)
      && (scheduleNextHint <==> NextHint(g.found.words).Some?)
  {
    flights, scheduleEnd := CheckAutoplayWord(g);
    scheduleNextHint := false;
    if !g.shouldCompleteAutomatically {
      return;
    }
    g.selection.entries := [];
    g.tray.shuffleVisible := true;
    g.UpdateSelectedLettersDisplay(None);
    g.messages := RemoveMessage(g.messages, g.message);
    var nextRemainingWords := Unfound(HintOrder, g.found.words);
    scheduleNextHint := |nextRemainingWords| > 0;
  }

  /**
   * Five seconds after an autoplay: autoplay on again and the next hint
   * shown. Nothing cancels this timeout, so it fires even after the player
   * has acted in the meantime.
   */
  method NextHintTimeout(g: Game) returns (timeline: HintTimeline?)
    requires g.Valid()
    modifies g`shouldCompleteAutomatically, g`message, g`messages, g`hand, g`hands
    ensures g.Valid()
    ensures g.shouldCompleteAutomatically
    ensures NextHint(g.found.words).None? ==>
      && timeline == null && g.message == old(g.message) && g.messages == old(g.messages)
      && g.hand == old(g.hand) && g.hands == old(g.hands)
    ensures NextHint(g.found.words).Some? ==>
      && timeline != null && fresh(timeline) && timeline.word == NextHint(g.found.words).value
      && timeline.counter == 0 && timeline.repeats == 2
      && g.message != null && fresh(g.message) && g.message.text == "Connect the letters " + timeline.word
      && g.messages == old(g.messages) + [g.message]
      && g.hand != null && fresh(g.hand) && g.hands == old(g.hands) + [g.hand]
  {
    g.shouldCompleteAutomatically := true;
    timeline := ShowInactivityMessage(g);
  }

  /**
   * A next-hint timeout and an inactivity timeout that both fire before a
   * reset put two messages and two hands on stage; the reset takes down only
   * the later pair, so the earlier message stays on show with nothing left
   * that refers to it.
   */
  method HintsPileUp(g: Game) returns (first: HintTimeline?, second: HintTimeline?)
    requires g.Valid() && g.timer.Some? && NextHint(g.found.words).Some?
    requires g.messages == [] && g.hands == []
    modifies g`timer, g`message, g`messages, g`hand, g`hands, g`shouldCompleteAutomatically, g.tray`highlighted, g.selection
    ensures g.message == null && g.hand == null
    ensures |g.messages| == 1 && |g.hands| == 1
    ensures g.messages[0].text == "Connect the letters " + NextHint(g.found.words).value
  {
    first := NextHintTimeout(g);
    second := FireInactivityTimer(g);
    ResetInactivityTimer(g, None);
  }
}
