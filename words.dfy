/**
 * The word check: the fixed four-word dictionary with each word's target
 * cells, the selection entries a word is read from, the list of found words,
 * and the check that commits a newly found word to the grid.
 */
module Words {
  import opened Wrappers
  import opened SeqFacts
  import opened Grid

  /** One selected letter: the sprite's text when it was selected, and the sprite (its index in the tray). */
  datatype Entry = Entry(letter: char, sprite: nat)

  /** A `selectedLetters` array, emptied and pushed to in place; the tray and the game each own one. */
  class Selection {
    var entries: seq<Entry>

    constructor ()
      ensures entries == []
    {
      entries := [];
    }
  }

  /** The `foundWords` array: created by the game and handed to the tray by reference, so both see one list. */
  class WordList {
    var words: seq<string>

    constructor ()
      ensures words == []
    {
      words := [];
    }
  }

  /** The dictionary: each valid word and the grid cells its letters go to, in order. */
  const ValidWords: map<string, seq<Pos>> := map[
    "GOLD" := [Pos(0, 0), Pos(0, 1), Pos(0, 2), Pos(0, 3)],
    "GOD" := [Pos(0, 0), Pos(1, 0), Pos(2, 0)],
    "DOG" := [Pos(2, 0), Pos(2, 1), Pos(2, 2)],
    "LOG" := [Pos(0, 2), Pos(1, 2), Pos(2, 2)]
  ]

  /** The order in which the hint proposes words. */
  const HintOrder: seq<string> := ["GOLD", "GOD", "DOG", "LOG"]

  /** The solved grid, row by row, as an independent reference; '-' stands at the hidden cells. */
  const Board: seq<string> := ["GOLD", "O-O-", "DOG-"]

  /** The word a selection spells: its letters joined in selection order. */
  function SelectedWord(selected: seq<Entry>): (w: string)
    ensures |w| == |selected|
    ensures forall i :: 0 <= i < |selected| ==> w[i] == selected[i].letter
  {
    if selected == [] then "" else [selected[0].letter] + SelectedWord(selected[1..])
  }

  /** The dictionary holds exactly the four hint words. */
  lemma DictionaryKeys()
    ensures ValidWords.Keys == {"GOLD", "GOD", "DOG", "LOG"}
    ensures |ValidWords.Keys| == 4
    ensures forall w :: w in HintOrder <==> w in ValidWords
    ensures NoDup(HintOrder)
  {
  }

  /**
   * Each word has one position per letter, every position is a visible cell,
   * and the letter a word puts there is the board's letter. So two words that
   * share a cell put the same letter into it.
   */
  lemma DictionaryOnBoard(w: string)
    requires w in ValidWords
    ensures |ValidWords[w]| == |w|
    ensures NoDup(ValidWords[w])
    ensures forall i :: 0 <= i < |w| ==>
      var p := ValidWords[w][i];
      p.row < Rows && p.col < Cols && !IsHidden(p.row, p.col) && Board[p.row][p.col] == w[i]
  {
  }

  lemma SharedCellsAgree(w1: string, w2: string, i: nat, j: nat)
    requires w1 in ValidWords && w2 in ValidWords
    requires i < |w1| && j < |w2|
    requires i < |ValidWords[w1]| && j < |ValidWords[w2]| && ValidWords[w1][i] == ValidWords[w2][j]
    ensures w1[i] == w2[j]
  {
    DictionaryOnBoard(w1);
    DictionaryOnBoard(w2);
  }

  /** Some found word has a letter at (r, c). */
  ghost predicate CoveredBy(found: seq<string>, r: nat, c: nat) {
    exists k :: 0 <= k < |found| && found[k] in ValidWords && Pos(r, c) in ValidWords[found[k]]
  }

  /** The four words together reach every visible cell. */
  lemma DictionaryCoversGrid(r: nat, c: nat)
    requires r < Rows && c < Cols && !IsHidden(r, c)
    ensures CoveredBy(HintOrder, r, c)
  {
    if r == 0 {
      assert Pos(r, c) in ValidWords[HintOrder[0]];
    } else if c == 0 {
      assert Pos(r, c) in ValidWords[HintOrder[1]];
    } else if r == 2 {
      assert Pos(r, c) in ValidWords[HintOrder[2]];
    } else {
      assert Pos(r, c) in ValidWords[HintOrder[3]];
    }
  }

  /** Target position of one letter's flight: the centre of its grid cell in scene coordinates. */
  function FlightTarget(p: Pos): (int, int) {
    (65 + p.col * 90 + 40, 80 + p.row * 90 + 40)
  }

  /** The flight lands on the centre of the visible cell `init` placed at that position. */
  lemma FlightLandsOnCell(p: Pos)
    requires !IsHidden(p.row, p.col)
    ensures FreshCell(p.row, p.col).Visible?
    ensures FlightTarget(p) == (GridLeft + FreshCell(p.row, p.col).x + CellSize / 2,
                                GridTop + FreshCell(p.row, p.col).y + CellSize / 2)
  {
  }

  /** A clone of a selected letter, flying from its sprite to a grid cell. */
  datatype Flight = Flight(sprite: nat, x: int, y: int)

  /** `checkWord`'s acceptance test: the word is a dictionary key that has not been found yet. */
  predicate Accepts(found: seq<string>, w: string) {
    w in ValidWords && w !in found
  }

  /** The found words after checking `w`. */
  function Record(found: seq<string>, w: string): seq<string> {
    if Accepts(found, w) then found + [w] else found
  }

  /** The grid after committing dictionary word `w`. */
  function CommitWord(cells: seq<seq<Cell>>, w: string): (r: seq<seq<Cell>>)
    requires |cells| == Rows && w in ValidWords
    ensures |r| == Rows
  {
    Commit(cells, w, ValidWords[w])
  }

  /** Found words are dictionary words, none twice. */
  ghost predicate WordsValid(found: seq<string>) {
    NoDup(found) && forall k :: 0 <= k < |found| ==> found[k] in ValidWords
  }

  /** Every filled cell holds the board's letter. */
  ghost predicate OnBoard(cells: seq<seq<Cell>>)
    requires Laid(cells)
  {
    forall r, c :: 0 <= r < Rows && 0 <= c < Cols && cells[r][c].Filled() ==> cells[r][c].letter.value == Board[r][c]
  }

  /** The grid holds exactly the letters of the found words: a cell is filled iff a found word reaches it. */
  ghost predicate GridMatches(cells: seq<seq<Cell>>, found: seq<string>) {
    && Laid(cells)
    && OnBoard(cells)
    && forall r, c :: 0 <= r < Rows && 0 <= c < Cols ==> (cells[r][c].Filled() <==> CoveredBy(found, r, c))
  }

  /** The grid with every visible cell filled with the board's letter. */
  function SolvedCells(): (cells: seq<seq<Cell>>)
    ensures |cells| == Rows
  {
    seq(Rows, r requires 0 <= r < Rows => seq(Cols, c requires 0 <= c < Cols =>
      if IsHidden(r, c) then Hidden else FreshCell(r, c).(letter := Some(Board[r][c]))))
  }

  lemma InitialGridMatches()
    ensures GridMatches(InitialCells(), [])
  {
    InitialCellsLaid();
  }

  /** At most four words can ever be found. */
  lemma FoundBound(found: seq<string>)
    requires WordsValid(found)
    ensures |found| <= 4
  {
    DictionaryKeys();
    NoDupBound(found, ValidWords.Keys);
  }

  /** Four found words are all the dictionary words. */
  lemma FourFoundAreAll(found: seq<string>)
    requires WordsValid(found) && |found| == 4
    ensures forall w :: w in ValidWords ==> w in found
  {
    DictionaryKeys();
    NoDupFull(found, ValidWords.Keys);
  }

  /** Checking a word keeps the list valid, only ever appends, and appends only an accepted word. */
  lemma RecordValid(found: seq<string>, w: string)
    requires WordsValid(found)
    ensures WordsValid(Record(found, w))
    ensures found <= Record(found, w) && |Record(found, w)| <= 4
    ensures Record(found, w) != found <==> Accepts(found, w)
  {
    var next := Record(found, w);
    if Accepts(found, w) {
      assert forall k :: 0 <= k < |found| ==> found[k] != w;
    }
    FoundBound(next);
  }

  /** Checking the same word twice changes nothing the second time. */
  lemma RecordIdempotent(found: seq<string>, w: string)
    ensures Record(Record(found, w), w) == Record(found, w)
    ensures w in ValidWords ==> w in Record(found, w)
  {
  }

  /** Committing a new dictionary word keeps the grid equal to the letters of the found words. */
  lemma CommitStep(cells: seq<seq<Cell>>, found: seq<string>, w: string)
    requires GridMatches(cells, found) && w in ValidWords
    ensures GridMatches(CommitWord(cells, w), found + [w])
  {
    var ps := ValidWords[w];
    DictionaryOnBoard(w);
    var out: seq<seq<Cell>> := CommitWord(cells, w);
    FillLaid(cells, w, ps, |ps|);
    var found' := found + [w];
    forall r, c | 0 <= r < Rows && 0 <= c < Cols
      ensures out[r][c].Filled() ==> out[r][c].letter.value == Board[r][c]
      ensures out[r][c].Filled() <==> CoveredBy(found', r, c)
    {
      FillWrites(cells, w, ps, |ps|, r, c);
      if CoveredBy(found, r, c) {
        var k :| 0 <= k < |found| && found[k] in ValidWords && Pos(r, c) in ValidWords[found[k]];
        assert found'[k] == found[k];
      }
      if Pos(r, c) in ps {
        var i :| 0 <= i < |ps| && ps[i] == Pos(r, c);
        FillMarks(cells, w, ps, |ps|, i);
        assert found'[|found|] == w;
      }
      if CoveredBy(found', r, c) {
        var k :| 0 <= k < |found'| && found'[k] in ValidWords && Pos(r, c) in ValidWords[found'[k]];
        if k < |found| {
          assert CoveredBy(found, r, c);
        }
      }
    }
  }

  /** Once every dictionary word is found, the grid is the solved board. */
  lemma AllFoundSolved(cells: seq<seq<Cell>>, found: seq<string>)
    requires GridMatches(cells, found)
    requires forall w :: w in ValidWords ==> w in found
    ensures cells == SolvedCells()
  {
    var solved := SolvedCells();
    forall r | 0 <= r < Rows
      ensures cells[r] == solved[r]
    {
      forall c | 0 <= c < Cols
        ensures cells[r][c] == solved[r][c]
      {
        if !IsHidden(r, c) {
          DictionaryCoversGrid(r, c);
          var k :| 0 <= k < |HintOrder| && HintOrder[k] in ValidWords && Pos(r, c) in ValidWords[HintOrder[k]];
          var j :| 0 <= j < |found| && found[j] == HintOrder[k];
          assert CoveredBy(found, r, c);
        }
      }
    }
  }

  /** The grid and found words after a run of word checks, as `checkWord` would leave them. */
  function Play(cells: seq<seq<Cell>>, found: seq<string>, ws: seq<string>): (r: (seq<seq<Cell>>, seq<string>))
    requires |cells| == Rows
    ensures |r.0| == Rows
    decreases |ws|
  {
    if ws == [] then (cells, found)
    else if Accepts(found, ws[0]) then Play(CommitWord(cells, ws[0]), found + [ws[0]], ws[1..])
    else Play(cells, found, ws[1..])
  }

  /** A run of checks keeps grid and list consistent, and every dictionary word checked ends up found. */
  lemma {:induction false} PlayKeepsMatch(cells: seq<seq<Cell>>, found: seq<string>, ws: seq<string>)
    requires |cells| == Rows && GridMatches(cells, found) && WordsValid(found)
    ensures GridMatches(Play(cells, found, ws).0, Play(cells, found, ws).1)
    ensures WordsValid(Play(cells, found, ws).1)
    ensures found <= Play(cells, found, ws).1
    ensures forall w :: w in ws && w in ValidWords ==> w in Play(cells, found, ws).1
    decreases |ws|
  {
    if ws != [] {
      var w := ws[0];
      if Accepts(found, w) {
        CommitStep(cells, found, w);
        RecordValid(found, w);
        PlayKeepsMatch(CommitWord(cells, w), found + [w], ws[1..]);
      } else {
        PlayKeepsMatch(cells, found, ws[1..]);
      }
      var out := Play(cells, found, ws).1;
      assert w in ValidWords ==> w in out by {
        if Accepts(found, w) {
          assert (found + [w])[|found|] == w;
          assert out[|found|] == w;
        } else if w in ValidWords {
          var k :| 0 <= k < |found| && found[k] == w;
          assert out[k] == w;
        }
      }
      assert forall x :: x in ws ==> x == w || x in ws[1..];
    }
  }

  /** Whatever the order in which the four words are found, the grid ends up as the solved board. */
  lemma AnyOrderSolves(ws: seq<string>)
    requires forall w :: w in HintOrder ==> w in ws
    ensures Play(InitialCells(), [], ws).0 == SolvedCells()
  {
    InitialGridMatches();
    DictionaryKeys();
    PlayKeepsMatch(InitialCells(), [], ws);
    AllFoundSolved(Play(InitialCells(), [], ws).0, Play(InitialCells(), [], ws).1);
  }

  /** The found words after a run of word checks. */
  function Run(found: seq<string>, ws: seq<string>): seq<string>
    decreases |ws|
  {
    if ws == [] then found else Run(Record(found, ws[0]), ws[1..])
  }

  /** How many checks in a run schedule the end of the game: those whose accepted word makes the count four. */
  function EndsScheduled(found: seq<string>, ws: seq<string>): nat
    decreases |ws|
  {
    if ws == [] then 0
    else
      var next := Record(found, ws[0]);
      (if next != found && |next| == 4 then 1 else 0) + EndsScheduled(next, ws[1..])
  }

  /** A run of checks keeps the list valid and never shrinks it. */
  lemma {:induction false} RunGrows(found: seq<string>, ws: seq<string>)
    requires WordsValid(found)
    ensures WordsValid(Run(found, ws)) && found <= Run(found, ws)
    decreases |ws|
  {
    if ws != [] {
      RecordValid(found, ws[0]);
      RunGrows(Record(found, ws[0]), ws[1..]);
    }
  }

  /** The end of the game is scheduled at most once: exactly when a run takes the count from below four to four. */
  lemma {:induction false} EndScheduledOnce(found: seq<string>, ws: seq<string>)
    requires WordsValid(found)
    ensures EndsScheduled(found, ws) == if |found| < 4 && |Run(found, ws)| == 4 then 1 else 0
    decreases |ws|
  {
    if ws != [] {
      var next := Record(found, ws[0]);
      RecordValid(found, ws[0]);
      EndScheduledOnce(next, ws[1..]);
      RunGrows(next, ws[1..]);
      FoundBound(Run(next, ws[1..]));
      FoundBound(found);
    }
  }

  /**
   * Reads the selection as a word; if it is a dictionary word not yet found,
   * commits it to the grid, appends it to the found words, and sends each
   * selected letter flying to its target cell. Reports whether this check
   * brought the count to four, which schedules the end of the game.
   */
  /**
   * The flights an accepted selection sends off: one per selected letter, in
   * selection order, each to the cell its word assigns to that letter.
   */
  function Flights(selected: seq<Entry>): (flights: seq<Flight>)
    requires SelectedWord(selected) in ValidWords
    ensures |flights| == |selected|
    ensures forall i :: 0 <= i < |selected| ==>
      && flights[i].sprite == selected[i].sprite
      && (flights[i].x, flights[i].y) == FlightTarget(ValidWords[SelectedWord(selected)][i])
  {
    DictionaryOnBoard(SelectedWord(selected));
    var positions := ValidWords[SelectedWord(selected)];
    seq(|selected|, i requires 0 <= i < |selected| => Flight(selected[i].sprite, FlightTarget(positions[i]).0, FlightTarget(positions[i]).1))
  }

  method CheckWord(selected: seq<Entry>, grid: WordGrid, found: WordList) returns (flights: seq<Flight>, scheduleEnd: bool)
    requires grid.Valid()
    modifies grid, found
    ensures grid.Valid()
    ensures found.words == Record(old(found.words), SelectedWord(selected))
    ensures grid.cells == if Accepts(old(found.words), SelectedWord(selected))
                          then CommitWord(old(grid.cells), SelectedWord(selected))
                          else old(grid.cells)
    ensures Accepts(old(found.words), SelectedWord(selected)) ==>
      |flights| == |selected| &&
      forall i :: 0 <= i < |selected| ==>
        flights[i] == Flight(selected[i].sprite,
                             FlightTarget(ValidWords[SelectedWord(selected)][i]).0,
                             FlightTarget(ValidWords[SelectedWord(selected)][i]).1)
    ensures !Accepts(old(found.words), SelectedWord(selected)) ==> flights == []
    ensures flights == if Accepts(old(found.words), SelectedWord(selected)) then Flights(selected) else []
    ensures scheduleEnd <==> Accepts(old(found.words), SelectedWord(selected)) && |found.words| == 4
    ensures GridMatches(old(grid.cells), old(found.words)) ==> GridMatches(grid.cells, found.words)
  {
    var selectedWord := SelectedWord(selected);
    flights := [];
    scheduleEnd := false;
    if selectedWord in ValidWords && selectedWord !in found.words {
      var positions := ValidWords[selectedWord];
      DictionaryOnBoard(selectedWord);
      if GridMatches(grid.cells, found.words) {
        CommitStep(grid.cells, found.words, selectedWord);
      }
      var _ := grid.UpdateGrid(selectedWord, positions);
      found.words := found.words + [selectedWord];

      for index := 0 to |selected|
        invariant |flights| == index
        invariant forall i :: 0 <= i < index ==>
          flights[i] == Flight(selected[i].sprite, FlightTarget(positions[i]).0, FlightTarget(positions[i]).1)
      {
        var target := FlightTarget(positions[index]);
        flights := flights + [Flight(selected[index].sprite, target.0, target.1)];
      }

      if |found.words| == 4 {
        scheduleEnd := true;
      }
    }
  }
}
