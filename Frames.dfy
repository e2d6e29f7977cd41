/**
 * The subproof frames `validateProof` derives from the depths of the
 * lines: a frame opens for every level a line goes deeper than the line
 * before it, and closes, at the line before, for every level a line comes
 * back up; frames still open after the last line close there.
 *
 * `engine.ts` keeps each frame object both in the list of all frames and on
 * a stack of open ones, and closes a frame by writing through the stack.
 * Here the stack holds the frame's index in the list instead.
 */
module Frames {
  import opened Wrappers
  import opened Proofs

  /** A frame while it is tracked: where it starts and, once closed, where it ends. */
  datatype Frame = Frame(
    depth: int,
    startIdx: nat,
    startLineNo: string,
    assumptionFormula: Option<string>,
    endIdx: Option<int>,
    endLineNo: Option<string>)

  /** All frames so far, and the indices of the open ones, innermost last. */
  datatype Tracker = Tracker(frames: seq<Frame>, stack: seq<nat>)

  /** The depth of the line before `i`, or 0 for the first line. */
  function PrevDepthAt(lines: seq<ProofLineInput>, i: nat): int
    requires i <= |lines|
  {
    if i > 0 then DepthOf(lines[i - 1]) else 0
  }

  /** `stack.push(f); frames.push(f)` */
  function Push(t: Tracker, f: Frame): Tracker {
    Tracker(t.frames + [f], t.stack + [|t.frames|])
  }

  /** `f = stack.pop(); if (f) { f.endIdx = e; f.endLineNo = no }` */
  function Pop(t: Tracker, e: int, no: string): Tracker {
    if t.stack == [] then t
    else
      var k := t.stack[|t.stack| - 1];
      var frames := if k < |t.frames| then t.frames[k := t.frames[k].(endIdx := Some(e), endLineNo := Some(no))] else t.frames;
      Tracker(frames, t.stack[..|t.stack| - 1])
  }

  /** The opening loop from level `d` on: one frame for each of the levels `d + 1` to `cur`, all starting at line `i`. */
  function OpenFrom(t: Tracker, d: int, cur: int, i: nat, line: ProofLineInput): Tracker
    decreases cur - d
  {
    if d >= cur then t
    else OpenFrom(Push(t, Frame(d + 1, i, line.lineNo, line.formula, None, None)), d + 1, cur, i, line)
  }

  /** The closing loop from level `d` down: one pop for each level above `cur`. */
  function CloseFrom(t: Tracker, d: int, cur: int, e: int, no: string): Tracker
    decreases d - cur
  {
    if d <= cur then t
    else CloseFrom(Pop(t, e, no), d - 1, cur, e, no)
  }

  /**
   * What line `i` does to the frames. The line number of the line before
   * is only read when a frame is popped, which cannot happen at the first
   * line, where nothing is open.
   */
  function Step(t: Tracker, lines: seq<ProofLineInput>, i: nat): Tracker
    requires i < |lines|
  {
    var cur := DepthOf(lines[i]);
    var prev := PrevDepthAt(lines, i);
    var grown := if cur > prev then OpenFrom(t, prev, cur, i, lines[i]) else t;
    if cur < prev then CloseFrom(grown, prev, cur, i - 1, if i > 0 then lines[i - 1].lineNo else "")
    else grown
  }

  /** The frames after the first `i` lines. */
  function TrackUpTo(lines: seq<ProofLineInput>, i: nat): Tracker
    requires i <= |lines|
  {
    if i == 0 then Tracker([], []) else Step(TrackUpTo(lines, i - 1), lines, i - 1)
  }

  /** `while (stack.length)`: every frame still open ends at line `e`. */
  function CloseRest(t: Tracker, e: int, no: string): Tracker
    decreases |t.stack|
  {
    if t.stack == [] then t else CloseRest(Pop(t, e, no), e, no)
  }

  /** The frames of a proof, once the frames still open are closed at the last line. */
  function FramesOf(lines: seq<ProofLineInput>): seq<Frame> {
    var t := TrackUpTo(lines, |lines|);
    if lines == [] then t.frames else CloseRest(t, |lines| - 1, lines[|lines| - 1].lineNo).frames
  }

  /** The frames as `validateProof` reports them: an end defaults to the start. */
  function Subproofs(frames: seq<Frame>): (ss: seq<SubproofFrame>)
    ensures |ss| == |frames|
    ensures forall j :: 0 <= j < |frames| ==>
      ss[j] == SubproofFrame(frames[j].depth, frames[j].startLineNo,
                             frames[j].endLineNo.GetOr(frames[j].startLineNo), frames[j].assumptionFormula)
  {
    seq(|frames|, j requires 0 <= j < |frames| =>
      SubproofFrame(frames[j].depth, frames[j].startLineNo, frames[j].endLineNo.GetOr(frames[j].startLineNo),
                    frames[j].assumptionFormula))
  }

  /** The frame tracking of `validateProof`, with its loops. */
  method TrackFrames(lines: seq<ProofLineInput>) returns (frames: seq<Frame>)
    ensures frames == FramesOf(lines)
  {
    frames := [];
    var stack: seq<nat> := [];
    for i := 0 to |lines|
      invariant Tracker(frames, stack) == TrackUpTo(lines, i)
    {
      var cur := DepthOf(lines[i]);
      var prev := if i > 0 then DepthOf(lines[i - 1]) else 0;
      ghost var before := Tracker(frames, stack);
      if cur > prev {
        var d := prev;
        while d < cur
          invariant d <= cur
          invariant OpenFrom(Tracker(frames, stack), d, cur, i, lines[i]) == OpenFrom(before, prev, cur, i, lines[i])
          decreases cur - d
        {
          var f := Frame(d + 1, i, lines[i].lineNo, lines[i].formula, None, None);
          stack := stack + [|frames|];
          frames := frames + [f];
          d := d + 1;
        }
      }
      ghost var grown := Tracker(frames, stack);
      if cur < prev {
        var no := if i > 0 then lines[i - 1].lineNo else "";
        var d := prev;
        while d > cur
          invariant d >= cur
          invariant CloseFrom(Tracker(frames, stack), d, cur, i - 1, no) == CloseFrom(grown, prev, cur, i - 1, no)
          decreases d - cur
        {
          frames, stack := PopFrame(frames, stack, i - 1, no);
          d := d - 1;
        }
      }
    }
    if |lines| > 0 {
      var e := |lines| - 1;
      var no := lines[e].lineNo;
      ghost var tracked := Tracker(frames, stack);
      while |stack| > 0
        invariant CloseRest(Tracker(frames, stack), e, no) == CloseRest(tracked, e, no)
        decreases |stack|
      {
        frames, stack := PopFrame(frames, stack, e, no);
      }
    }
  }

  /** One `stack.pop()` and the write through the popped frame. */
  method PopFrame(frames: seq<Frame>, stack: seq<nat>, e: int, no: string) returns (frames': seq<Frame>, stack': seq<nat>)
    ensures Tracker(frames', stack') == Pop(Tracker(frames, stack), e, no)
  {
    frames', stack' := frames, stack;
    if |stack| > 0 {
      var k := stack[|stack| - 1];
      stack' := stack[..|stack| - 1];
      if k < |frames| {
        frames' := frames[k := frames[k].(endIdx := Some(e), endLineNo := Some(no))];
      }
    }
  }
}
