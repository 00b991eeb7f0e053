/**
 * The letter tray: the tray's letters in slot order, one text sprite per
 * letter, the tray's own selection, and the shuffle that rearranges the
 * letters. A sprite is named by its index in the sprite list, whose order
 * never changes once rendered; a sprite's slot is the angle index it sits at.
 */
module Tray {
  import opened Wrappers
  import opened SeqFacts
  import opened Grid
  import opened Words

  /** The slots right after rendering: sprite `i` at slot `i`. */
  function Slots(n: nat): (s: seq<nat>)
    ensures |s| == n && forall i :: 0 <= i < n ==> s[i] == i
  {
    seq(n, i => i)
  }

  /** `n` sprites in the default (unselected) style. */
  function Unlit(n: nat): (s: seq<bool>)
    ensures |s| == n && forall i :: 0 <= i < n ==> !s[i]
  {
    seq(n, _ => false)
  }

  /** No two entries name the same sprite. */
  predicate DistinctSprites(entries: seq<Entry>) {
    forall i, j :: 0 <= i < j < |entries| ==> entries[i].sprite != entries[j].sprite
  }

  /** Every entry names one of `n` sprites. */
  predicate SpritesBelow(entries: seq<Entry>, n: nat) {
    forall i :: 0 <= i < |entries| ==> entries[i].sprite < n
  }

  /** Some entry names sprite `j`: the `some` test on sprite identity. */
  predicate Mentions(entries: seq<Entry>, j: nat) {
    exists i :: 0 <= i < |entries| && entries[i].sprite == j
  }

  /** A selection that never names a sprite twice holds at most one entry per sprite. */
  lemma SelectionBound(entries: seq<Entry>, n: nat)
    requires DistinctSprites(entries) && SpritesBelow(entries, n)
    ensures |entries| <= n
  {
    var ids := seq(|entries|, i requires 0 <= i < |entries| => entries[i].sprite);
    assert forall i :: 0 <= i < |ids| ==> ids[i] in Below(n);
    NoDupBound(ids, Below(n));
  }

  /** Candidate `k` is the first one that differs from the current order. */
  predicate FirstDifferentAt(current: seq<char>, candidates: seq<seq<char>>, k: nat) {
    k < |candidates| && candidates[k] != current && forall i :: 0 <= i < k ==> candidates[i] == current
  }

  /** The candidate the retry loop accepts: the first whose order differs from the current one. */

  function FirstChange(current: seq<char>, candidates: seq<seq<char>>): (r: Option<seq<char>>)
    ensures r.Some? ==> r.value in candidates && r.value != current
    ensures r.None? <==> forall k :: 0 <= k < |candidates| ==> candidates[k] == current
    ensures r.Some? ==> exists k: nat :: FirstDifferentAt(current, candidates, k) && candidates[k] == r.value
  {
    if candidates == [] then None
    else if candidates[0] != current then
      assert FirstDifferentAt(current, candidates, 0);
      Some(candidates[0])
    else
      var rest := FirstChange(current, candidates[1..]);
      assert rest.Some? ==> exists k: nat :: FirstDifferentAt(current, candidates, k) && candidates[k] == rest.value by {
        if rest.Some? {
          var k: nat :| FirstDifferentAt(current, candidates[1..], k) && candidates[1..][k] == rest.value;
          assert FirstDifferentAt(current, candidates, k + 1) by {
            forall i | 0 <= i < k + 1
              ensures candidates[i] == current
            {
              if i > 0 {
                assert candidates[i] == candidates[1..][i - 1];
              }
            }
          }
        }
      }
      rest
  }

  /**
   * An accepted shuffle is a rearrangement of the current letters that moves
   * at least two of them; distinct letters stay distinct.
   */
  lemma AcceptedShuffle(current: seq<char>, candidates: seq<seq<char>>)
    requires forall k :: 0 <= k < |candidates| ==> multiset(candidates[k]) == multiset(current)
    requires FirstChange(current, candidates).Some?
    ensures var s := FirstChange(current, candidates).value;
      && multiset(s) == multiset(current)
      && |s| == |current|
      && (exists i, j :: 0 <= i < j < |s| && s[i] != current[i] && s[j] != current[j])
      && (NoDup(current) ==> NoDup(s))
  {
    var s := FirstChange(current, candidates).value;
    var k :| 0 <= k < |candidates| && candidates[k] == s;
    PermutationMovesTwo(s, current);
    if NoDup(current) {
      NoDupPermutation(current, s);
    }
  }

  /** The inner loop of the retry: reports whether some index holds a different letter. */
  method HasChanged(shuffledLetters: seq<char>, newShuffledLetters: seq<char>) returns (hasChanged: bool)
    requires |newShuffledLetters| == |shuffledLetters|
    ensures hasChanged <==> shuffledLetters != newShuffledLetters
  {
    hasChanged := false;
    for i := 0 to |shuffledLetters|
      invariant forall k :: 0 <= k < i ==> shuffledLetters[k] == newShuffledLetters[k]
    {
      if shuffledLetters[i] != newShuffledLetters[i] {
        hasChanged := true;
        break;
      }
    }
  }

  /**
   * The retry loop: takes the candidate sorts in turn and accepts the first
   * that differs from the current order. The loop stops when the candidates
   * run out, where the original keeps drawing.
   */
  method DrawShuffle(shuffledLetters: seq<char>, candidates: seq<seq<char>>) returns (accepted: Option<seq<char>>)
    requires forall k :: 0 <= k < |candidates| ==> |candidates[k]| == |shuffledLetters|
    ensures accepted == FirstChange(shuffledLetters, candidates)
  {
    accepted := None;
    var attempt := 0;
    while attempt < |candidates|
      invariant attempt <= |candidates|
      invariant FirstChange(shuffledLetters, candidates) == FirstChange(shuffledLetters, candidates[attempt..])
    {
      var newShuffledLetters := candidates[attempt];
      var hasChanged := HasChanged(shuffledLetters, newShuffledLetters);
      if hasChanged {
        accepted := Some(newShuffledLetters);
        return;
      }
      assert candidates[attempt..][1..] == candidates[attempt + 1..];
      attempt := attempt + 1;
    }
  }

  class LetterTray {
    /** The letters in slot order. */
    var letters: seq<char>
    /** The text each sprite shows. */
    var spriteText: seq<char>
    /** The slot each sprite sits at or is moving to. */
    var spriteSlot: seq<nat>
    /** Whether each sprite has the selected (white) style. */
    var highlighted: seq<bool>
    var dragging: bool
    var shuffleVisible: bool
    /** The tray's own `selectedLetters`. */
    const selection: Selection
    const grid: WordGrid
    const found: WordList

    /**
     * One sprite per letter; the letters are distinct and the sprites show
     * exactly the letters; every sprite has a slot; the selection names each
     * sprite at most once.
     */
    ghost predicate Valid()
      reads this, selection
    {
      && |spriteText| == |letters| && |spriteSlot| == |letters| && |highlighted| == |letters|
      && NoDup(letters)
      && multiset(spriteText) == multiset(letters)
      && (forall j :: 0 <= j < |spriteSlot| ==> spriteSlot[j] < |letters|)
      && DistinctSprites(selection.entries)
      && SpritesBelow(selection.entries, |letters|)
    }

    /** Every sprite sits at the slot of the letter it shows. */
    ghost predicate Arranged()
      reads this
    {
      && |spriteSlot| == |spriteText|
      && forall j :: 0 <= j < |spriteSlot| ==> spriteSlot[j] < |letters| && letters[spriteSlot[j]] == spriteText[j]
    }

    /** Stores the shared grid and found words, starts with an empty selection and renders the letters. */
    constructor (letters: seq<char>, grid: WordGrid, found: WordList)
      ensures this.letters == letters && this.grid == grid && this.found == found
      ensures fresh(selection) && selection.entries == []
      ensures spriteText == letters && spriteSlot == Slots(|letters|) && highlighted == Unlit(|letters|)
      ensures !dragging && shuffleVisible
      ensures NoDup(letters) ==> Valid() && Arranged()
    {
      this.letters := letters;
      this.grid := grid;
      this.found := found;
      selection := new Selection();
      spriteText := [];
      spriteSlot := [];
      highlighted := [];
      dragging := false;
      shuffleVisible := true;
      new;
      RenderLetters();
    }

    /** Replaces the sprites by one fresh, unselected sprite per letter, letter `i` at slot `i`. */
    method RenderLetters()
      modifies this`spriteText, this`spriteSlot, this`highlighted
      ensures spriteText == letters && spriteSlot == Slots(|letters|) && highlighted == Unlit(|letters|)
      ensures Arranged()
    {
      var texts: seq<char> := [];
      var slots: seq<nat> := [];
      var styles: seq<bool> := [];
      for index := 0 to |letters|
        invariant texts == letters[..index]
        invariant slots == Slots(index)
        invariant styles == Unlit(index)
      {
        texts := texts + [letters[index]];
        slots := slots + [index];
        styles := styles + [false];
      }
      spriteText := texts;
      spriteSlot := slots;
      highlighted := styles;
    }

    /** The first sprite showing `letter`, if any. */
    method FindSprite(letter: char) returns (r: Option<nat>)
      ensures r.Some? ==> r.value < |spriteText| && spriteText[r.value] == letter
      ensures r.Some? ==> forall k :: 0 <= k < r.value ==> spriteText[k] != letter
      ensures r.None? <==> letter !in spriteText
      ensures multiset(spriteText) == multiset(letters) && letter in letters ==> r.Some?
    {
      r := None;
      for j := 0 to |spriteText|
        invariant forall k :: 0 <= k < j ==> spriteText[k] != letter
      {
        if spriteText[j] == letter {
          r := Some(j);
          return;
        }
      }
      assert letter in letters ==> letter in multiset(letters);
    }

    /**
     * Sends every sprite towards the slot that its letter has in `shuffled`;
     * the sprite for a letter is the first one showing it.
     */
    method MoveSprites(shuffled: seq<char>)
      requires |spriteSlot| == |spriteText| && NoDup(spriteText)
      requires multiset(spriteText) == multiset(shuffled)
      modifies this`spriteSlot
      ensures |spriteSlot| == |spriteText|
      ensures forall j :: 0 <= j < |spriteSlot| ==> spriteSlot[j] < |shuffled| && shuffled[spriteSlot[j]] == spriteText[j]
    {
      for index := 0 to |shuffled|
        invariant |spriteSlot| == |spriteText|
        invariant forall j :: 0 <= j < |spriteSlot| && spriteText[j] in shuffled[..index] ==>
          spriteSlot[j] < |shuffled| && shuffled[spriteSlot[j]] == spriteText[j]
      {
        var sprite := FindSprite(shuffled[index]);
        if sprite.Some? {
          spriteSlot := spriteSlot[sprite.value := index];
        }
        assert shuffled[..index + 1] == shuffled[..index] + [shuffled[index]];
      }
      assert shuffled[..|shuffled|] == shuffled;
      assert forall j :: 0 <= j < |spriteText| ==> spriteText[j] in multiset(shuffled);
    }

    /**
     * Draws candidate orders until one differs from the current order, sends
     * every sprite towards the slot of its letter in that order, and makes it
     * the tray's order. The sprites keep their texts until the animation
     * completes. `candidates` are the successive random sorts of the letters;
     * when none of them differs, nothing changes.
     */
    method ShuffleLetters(candidates: seq<seq<char>>) returns (accepted: Option<seq<char>>)
      requires Valid()
      requires forall k :: 0 <= k < |candidates| ==> multiset(candidates[k]) == multiset(letters)
      modifies this`letters, this`spriteSlot
      ensures Valid()
      ensures accepted == FirstChange(old(letters), candidates)
      ensures accepted.None? ==> letters == old(letters) && spriteSlot == old(spriteSlot)
      ensures accepted.Some? ==> letters == accepted.value && Arranged()
    {
      forall k | 0 <= k < |candidates|
        ensures |candidates[k]| == |letters|
      {
        assert |candidates[k]| == |multiset(candidates[k])|;
      }
      accepted := DrawShuffle(letters, candidates);
      if accepted.Some? {
        AcceptedShuffle(letters, candidates);
        NoDupPermutation(letters, spriteText);
        MoveSprites(accepted.value);
        letters := accepted.value;
      }
    }

    /**
     * The end of the last shuffle animation: sprite `i` is put at slot `i`
     * and shows `order[i]`, the order that shuffle chose. The sprites are
     * arranged afterwards exactly when no later shuffle has replaced the order.
     */
    method CompleteShuffle(order: seq<char>)
      requires Valid()
      requires multiset(order) == multiset(letters)
      modifies this`spriteText, this`spriteSlot
      ensures Valid()
      ensures spriteText == order && spriteSlot == Slots(|letters|)
      ensures Arranged() <==> order == letters
    {
      PlaceSprites(order);
      assert spriteSlot == Slots(|letters|);
      if Arranged() {
        assert forall j :: 0 <= j < |letters| ==> letters[j] == order[j];
      }
    }

    /** The loop of the animation's completion: sprite `i` goes to slot `i` and shows `order[i]`. */
    method PlaceSprites(order: seq<char>)
      requires Valid()
      requires multiset(order) == multiset(letters)
      modifies this`spriteText, this`spriteSlot
      ensures Valid()
      ensures spriteText == order && spriteSlot == Slots(|letters|)
    {
      assert |order| == |multiset(order)| == |letters|;
      for i := 0 to |letters|
        invariant |spriteText| == |letters| && |spriteSlot| == |letters|
        invariant forall j :: 0 <= j < i ==> spriteText[j] == order[j] && spriteSlot[j] == j
        invariant forall j :: 0 <= j < |spriteSlot| ==> spriteSlot[j] < |letters|
      {
        spriteSlot := spriteSlot[i := i];
        spriteText := spriteText[i := order[i]];
      }
      assert spriteText == order;
      assert spriteSlot == Slots(|letters|);
    }
  }
}
