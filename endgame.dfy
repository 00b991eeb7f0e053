/**
 * The end screen's spinning earth: the frames cut from a 5 by 4 sprite sheet
 * (the last cell is empty) and the index of the frame on show, which advances
 * by one, wrapping around, on every animation step.
 */
module EndScreen {
  import opened SeqFacts

  /** The sheet cell a frame is cut from: column `x`, row `y`. */
  datatype Frame = Frame(x: nat, y: nat)

  const SheetColumns: nat := 5
  const SheetRows: nat := 4
  const FrameCount: nat := 19

  /** The frames in cutting order: row by row, column by column within a row. */
  function SheetFrames(): (frames: seq<Frame>)
    ensures |frames| == FrameCount
  {
    seq(FrameCount, i requires 0 <= i => Frame(i % SheetColumns, i / SheetColumns))
  }

  /** Every cell of the sheet except the last one of the last row is a frame, each exactly once. */
  lemma SheetFramesCover()
    ensures forall x: nat, y: nat :: x < SheetColumns && y < SheetRows ==>
      (Frame(x, y) in SheetFrames() <==> !(x == 4 && y == 3))
    ensures forall x: nat, y: nat :: x < SheetColumns && y < SheetRows && !(x == 4 && y == 3) ==>
      SheetFrames()[y * SheetColumns + x] == Frame(x, y)
    ensures NoDup(SheetFrames())
  {
    var frames := SheetFrames();
    forall x: nat, y: nat | x < SheetColumns && y < SheetRows && !(x == 4 && y == 3)
      ensures frames[y * SheetColumns + x] == Frame(x, y)
    {
      var i := y * SheetColumns + x;
      assert i < FrameCount;
      assert i / SheetColumns == y && i % SheetColumns == x;
    }
    forall i | 0 <= i < FrameCount
      ensures frames[i].x < SheetColumns && frames[i].y < SheetRows && !(frames[i].x == 4 && frames[i].y == 3)
      ensures frames[i].y * SheetColumns + frames[i].x == i
    {
    }
  }

  /** The frame index after `steps` animation steps from frame 0. */
  function IndexAfter(steps: nat): (k: nat)
    ensures k < FrameCount
  {
    if steps == 0 then 0 else (IndexAfter(steps - 1) + 1) % FrameCount
  }

  /** Advancing one step at a time is counting modulo 19. */
  lemma {:induction false} IndexAfterCounts(steps: nat)
    ensures IndexAfter(steps) == steps % FrameCount
  {
    if steps > 0 {
      IndexAfterCounts(steps - 1);
    }
  }

  /** The animation repeats every 19 steps. */
  lemma AnimationPeriod(steps: nat)
    ensures IndexAfter(steps + FrameCount) == IndexAfter(steps)
  {
    IndexAfterCounts(steps);
    IndexAfterCounts(steps + FrameCount);
    var q := steps / FrameCount;
    assert steps + FrameCount == FrameCount * (q + 1) + steps % FrameCount;
  }

  class EndGame {
    var frames: seq<Frame>
    /** The index of the frame the earth shows. */
    var frameIndex: nat
    /** The frame the earth sprite shows. */
    var texture: Frame

    ghost predicate Valid()
      reads this
    {
      frames == SheetFrames() && frameIndex < |frames| && texture == frames[frameIndex]
    }

    /** Cuts the frames row by row, shows the first, and takes the first animation step at once. */
    constructor ()
      ensures Valid()
      ensures frameIndex == IndexAfter(1) && texture == Frame(1, 0)
    {
      var cut: seq<Frame> := [];
      for y := 0 to SheetRows
        invariant |cut| == if y == SheetRows then FrameCount else y * SheetColumns
        invariant forall i :: 0 <= i < |cut| ==> cut[i] == Frame(i % SheetColumns, i / SheetColumns)
      {
        for x := 0 to SheetColumns
          invariant |cut| == if y == 3 && x == 5 then FrameCount else y * SheetColumns + x
          invariant forall i :: 0 <= i < |cut| ==> cut[i] == Frame(i % SheetColumns, i / SheetColumns)
        {
          if y == 3 && x == 4 {
            continue;
          }
          cut := cut + [Frame(x, y)];
        }
      }
      frames := cut;
      texture := cut[0];
      frameIndex := 0;
      new;
      UpdateFrame();
    }

    /** One animation step: the next frame, wrapping around after the last. */
    method UpdateFrame()
      requires Valid()
      modifies this`frameIndex, this`texture
      ensures Valid()
      ensures frameIndex == (old(frameIndex) + 1) % |frames|
    {
      frameIndex := (frameIndex + 1) % |frames|;
      texture := frames[frameIndex];
    }
  }
}
