/**
 * What the frame tracker guarantees. Whatever the depths, every frame is
 * closed by the end, inside the proof, and records the line numbers and
 * the assumption of the lines it starts and ends at. When no depth is
 * negative, the frames are exactly the subproofs the depths describe: a
 * frame of depth `d` covers a run of lines at depth `d` or more, and the
 * lines just before and just after the run are shallower.
 */
module FramesProps {
  import opened Wrappers
  import opened Proofs
  import opened Frames

  // ---------------------------------------------------------------------
  // Shape: starts and ends lie in the proof, open frames are on the stack
  // ---------------------------------------------------------------------

  /** A frame that started within the first `b` lines and, if closed, ended there. */
  predicate FrameShape(lines: seq<ProofLineInput>, f: Frame, b: nat) {
    b <= |lines| && f.startIdx < b
    && f.startLineNo == lines[f.startIdx].lineNo && f.assumptionFormula == lines[f.startIdx].formula
    && (f.endIdx.Some? ==> f.startIdx <= f.endIdx.value < b && f.endLineNo == Some(lines[f.endIdx.value].lineNo))
  }

  /** The stack lists the open frames, oldest first, and every frame lies within the first `b` lines. */
  predicate Shape(lines: seq<ProofLineInput>, t: Tracker, b: nat) {
    b <= |lines|
    && (forall k :: 0 <= k < |t.stack| ==> t.stack[k] < |t.frames| && t.frames[t.stack[k]].endIdx.None?)
    && (forall k1, k2 :: 0 <= k1 < k2 < |t.stack| ==> t.stack[k1] < t.stack[k2])
    && (forall j :: 0 <= j < |t.frames| && t.frames[j].endIdx.None? ==> j in t.stack)
    && (forall j :: 0 <= j < |t.frames| ==> FrameShape(lines, t.frames[j], b))
  }

  lemma ShapeWeaken(lines: seq<ProofLineInput>, t: Tracker, b: nat, b2: nat)
    requires Shape(lines, t, b) && b <= b2 <= |lines|
    ensures Shape(lines, t, b2)
  {
    forall j | 0 <= j < |t.frames| ensures FrameShape(lines, t.frames[j], b2) {
      assert FrameShape(lines, t.frames[j], b);
    }
  }

  lemma PushShape(lines: seq<ProofLineInput>, t: Tracker, f: Frame, b: nat)
    requires Shape(lines, t, b) && FrameShape(lines, f, b) && f.endIdx.None?
    ensures Shape(lines, Push(t, f), b)
  {
    var t2 := Push(t, f);
    var n := |t.frames|;
    forall j | 0 <= j < |t2.frames| && t2.frames[j].endIdx.None? ensures j in t2.stack {
      if j < n {
        assert t2.frames[j] == t.frames[j];
        assert j in t.stack;
      } else {
        assert t2.stack[|t.stack|] == j;
      }
    }
    forall j | 0 <= j < |t2.frames| ensures FrameShape(lines, t2.frames[j], b) {
      if j < n {
        assert t2.frames[j] == t.frames[j];
      }
    }
  }

  /** Popping at the end of the first `b` lines keeps the shape. */
  lemma PopShape(lines: seq<ProofLineInput>, t: Tracker, b: nat)
    requires Shape(lines, t, b) && 0 < b
    ensures Shape(lines, Pop(t, b - 1, lines[b - 1].lineNo), b)
  {
    if t.stack != [] {
      var t2 := Pop(t, b - 1, lines[b - 1].lineNo);
      var top := |t.stack| - 1;
      var k := t.stack[top];
      assert t2.frames == t.frames[k := t.frames[k].(endIdx := Some(b - 1), endLineNo := Some(lines[b - 1].lineNo))];
      forall m | 0 <= m < |t2.stack| ensures t2.stack[m] < |t2.frames| && t2.frames[t2.stack[m]].endIdx.None? {
        assert t.stack[m] < k;
      }
      forall j | 0 <= j < |t2.frames| && t2.frames[j].endIdx.None? ensures j in t2.stack {
        assert j != k && t2.frames[j] == t.frames[j];
        var m :| 0 <= m < |t.stack| && t.stack[m] == j;
        assert m != top;
        assert t2.stack[m] == j;
      }
      forall j | 0 <= j < |t2.frames| ensures FrameShape(lines, t2.frames[j], b) {
        assert FrameShape(lines, t.frames[j], b);
      }
    }
  }

  lemma {:induction false} OpenFromShape(lines: seq<ProofLineInput>, t: Tracker, d: int, cur: int, i: nat)
    requires i < |lines| && Shape(lines, t, i + 1)
    ensures Shape(lines, OpenFrom(t, d, cur, i, lines[i]), i + 1)
    decreases cur - d
  {
    if d < cur {
      var f := Frame(d + 1, i, lines[i].lineNo, lines[i].formula, None, None);
      PushShape(lines, t, f, i + 1);
      OpenFromShape(lines, Push(t, f), d + 1, cur, i);
    }
  }

  lemma {:induction false} CloseFromShape(lines: seq<ProofLineInput>, t: Tracker, d: int, cur: int, b: nat)
    requires Shape(lines, t, b) && 0 < b
    ensures Shape(lines, CloseFrom(t, d, cur, b - 1, lines[b - 1].lineNo), b)
    decreases d - cur
  {
    if d > cur {
      PopShape(lines, t, b);
      CloseFromShape(lines, Pop(t, b - 1, lines[b - 1].lineNo), d - 1, cur, b);
    }
  }

  /** Pops on an empty stack change nothing. */
  lemma {:induction false} CloseFromEmpty(t: Tracker, d: int, cur: int, e: int, no: string)
    requires t.stack == []
    ensures CloseFrom(t, d, cur, e, no) == t
    decreases d - cur
  {
    if d > cur {
      CloseFromEmpty(t, d - 1, cur, e, no);
    }
  }

  lemma StepShape(lines: seq<ProofLineInput>, t: Tracker, i: nat)
    requires i < |lines| && Shape(lines, t, i) && (i == 0 ==> t.stack == [])
    ensures Shape(lines, Step(t, lines, i), i + 1)
  {
    var cur := DepthOf(lines[i]);
    var prev := PrevDepthAt(lines, i);
    if cur > prev {
      ShapeWeaken(lines, t, i, i + 1);
      OpenFromShape(lines, t, prev, cur, i);
    } else if cur < prev {
      if i > 0 {
        CloseFromShape(lines, t, prev, cur, i);
        ShapeWeaken(lines, CloseFrom(t, prev, cur, i - 1, lines[i - 1].lineNo), i, i + 1);
      } else {
        CloseFromEmpty(t, prev, cur, i - 1, "");
        ShapeWeaken(lines, t, i, i + 1);
      }
    } else {
      ShapeWeaken(lines, t, i, i + 1);
    }
  }

  lemma {:induction false} TrackShape(lines: seq<ProofLineInput>, i: nat)
    requires i <= |lines|
    ensures Shape(lines, TrackUpTo(lines, i), i)
  {
    if i > 0 {
      TrackShape(lines, i - 1);
      StepShape(lines, TrackUpTo(lines, i - 1), i - 1);
    }
  }

  lemma {:induction false} CloseRestShape(lines: seq<ProofLineInput>, t: Tracker, b: nat)
    requires Shape(lines, t, b) && 0 < b
    ensures Shape(lines, CloseRest(t, b - 1, lines[b - 1].lineNo), b)
    ensures CloseRest(t, b - 1, lines[b - 1].lineNo).stack == []
    decreases |t.stack|
  {
    if t.stack != [] {
      PopShape(lines, t, b);
      CloseRestShape(lines, Pop(t, b - 1, lines[b - 1].lineNo), b);
    }
  }

  /**
   * Every frame is closed, starts no later than it ends, lies in the
   * proof, and carries the line numbers of its first and last lines and
   * the formula of its first line as its assumption.
   */
  lemma FramesClosed(lines: seq<ProofLineInput>)
    ensures forall j :: 0 <= j < |FramesOf(lines)| ==>
      var f := FramesOf(lines)[j];
      f.endIdx.Some? && f.startIdx <= f.endIdx.value < |lines|
      && f.startLineNo == lines[f.startIdx].lineNo && f.assumptionFormula == lines[f.startIdx].formula
      && f.endLineNo == Some(lines[f.endIdx.value].lineNo)
  {
    var n := |lines|;
    if n > 0 {
      TrackShape(lines, n);
      CloseRestShape(lines, TrackUpTo(lines, n), n);
      var c := CloseRest(TrackUpTo(lines, n), n - 1, lines[n - 1].lineNo);
      assert FramesOf(lines) == c.frames;
      assert c.stack == [];
    }
  }

  /** The reported end line of every subproof is the line number of the frame's last line. */
  lemma SubproofEnds(lines: seq<ProofLineInput>)
    ensures forall j :: 0 <= j < |FramesOf(lines)| ==>
      var f := FramesOf(lines)[j];
      f.endIdx.Some? && 0 <= f.endIdx.value < |lines|
      && Subproofs(FramesOf(lines))[j].endLineNo == lines[f.endIdx.value].lineNo
  {
    FramesClosed(lines);
  }

  // ---------------------------------------------------------------------
  // Nesting: with non-negative depths, frames are the subproofs
  // ---------------------------------------------------------------------

  /** No line has a negative depth. */
  predicate NonNegDepths(lines: seq<ProofLineInput>) {
    forall i :: 0 <= i < |lines| ==> DepthOf(lines[i]) >= 0
  }

  /**
   * The frame is the subproof of depth `f.depth` that begins at its first
   * line: that line goes down to depth `f.depth` from a shallower line,
   * every line up to its last is at that depth or deeper, and the line
   * after the last, if any, is shallower.
   */
  predicate IsSubproof(lines: seq<ProofLineInput>, f: Frame) {
    f.endIdx.Some? && f.startIdx <= f.endIdx.value < |lines|
    && PrevDepthAt(lines, f.startIdx) < f.depth <= DepthOf(lines[f.startIdx])
    && (forall m :: f.startIdx <= m <= f.endIdx.value ==> DepthOf(lines[m]) >= f.depth)
    && (f.endIdx.value + 1 == |lines| || DepthOf(lines[f.endIdx.value + 1]) < f.depth)
  }

  /** The open frame at stack position `k` has depth `k + 1`. */
  predicate StackDepths(t: Tracker) {
    forall k :: 0 <= k < |t.stack| ==> t.stack[k] < |t.frames| && t.frames[t.stack[k]].depth == k + 1
  }

  /** A closed frame is a subproof; an open one has stayed at its depth through the first `b` lines. */
  predicate FrameNest(lines: seq<ProofLineInput>, f: Frame, b: nat) {
    b <= |lines| && f.startIdx < |lines|
    && (f.endIdx.None? ==>
          PrevDepthAt(lines, f.startIdx) < f.depth <= DepthOf(lines[f.startIdx])
          && forall m :: f.startIdx <= m < b ==> DepthOf(lines[m]) >= f.depth)
    && (f.endIdx.Some? ==> IsSubproof(lines, f))
  }

  predicate Nest(lines: seq<ProofLineInput>, t: Tracker, b: nat) {
    StackDepths(t) && forall j :: 0 <= j < |t.frames| ==> FrameNest(lines, t.frames[j], b)
  }

  /** The open frames stay open through line `i` when it is at least as deep as the stack. */
  lemma ExtendNest(lines: seq<ProofLineInput>, t: Tracker, i: nat)
    requires i < |lines| && Shape(lines, t, i) && Nest(lines, t, i) && |t.stack| <= DepthOf(lines[i])
    ensures Nest(lines, t, i + 1)
  {
    forall j | 0 <= j < |t.frames| ensures FrameNest(lines, t.frames[j], i + 1) {
      var f := t.frames[j];
      assert FrameNest(lines, f, i);
      if f.endIdx.None? {
        var k :| 0 <= k < |t.stack| && t.stack[k] == j;
        assert f.depth == k + 1;
      }
    }
  }

  lemma PushNest(lines: seq<ProofLineInput>, t: Tracker, f: Frame, b: nat)
    requires Nest(lines, t, b) && FrameNest(lines, f, b) && f.depth == |t.stack| + 1
    ensures Nest(lines, Push(t, f), b)
  {
    var t2 := Push(t, f);
    forall j | 0 <= j < |t2.frames| ensures FrameNest(lines, t2.frames[j], b) {
      if j < |t.frames| {
        assert t2.frames[j] == t.frames[j];
      }
    }
    forall k | 0 <= k < |t2.stack| ensures t2.stack[k] < |t2.frames| && t2.frames[t2.stack[k]].depth == k + 1 {
      if k < |t.stack| {
        assert t2.stack[k] == t.stack[k];
      }
    }
  }

  /**
   * Popping at the end of the first `b` lines, when the line after them is
   * shallower than the innermost open frame, or there is none, closes that
   * frame as a subproof.
   */
  lemma PopNest(lines: seq<ProofLineInput>, t: Tracker, b: nat)
    requires Shape(lines, t, b) && Nest(lines, t, b) && 0 < b && t.stack != []
    requires b == |lines| || |t.stack| > DepthOf(lines[b])
    ensures Nest(lines, Pop(t, b - 1, lines[b - 1].lineNo), b)
    ensures |Pop(t, b - 1, lines[b - 1].lineNo).stack| == |t.stack| - 1
  {
    var t2 := Pop(t, b - 1, lines[b - 1].lineNo);
    var k := t.stack[|t.stack| - 1];
    assert t2.frames == t.frames[k := t.frames[k].(endIdx := Some(b - 1), endLineNo := Some(lines[b - 1].lineNo))];
    forall j | 0 <= j < |t2.frames| ensures FrameNest(lines, t2.frames[j], b) {
      assert FrameNest(lines, t.frames[j], b);
      if j == k {
        assert FrameShape(lines, t.frames[j], b);
      }
    }
    forall m | 0 <= m < |t2.stack| ensures t2.stack[m] < |t2.frames| && t2.frames[t2.stack[m]].depth == m + 1 {
      assert t2.stack[m] == t.stack[m];
    }
  }

  lemma {:induction false} OpenFromNest(lines: seq<ProofLineInput>, t: Tracker, d: int, cur: int, i: nat)
    requires i < |lines| && cur == DepthOf(lines[i]) && PrevDepthAt(lines, i) <= d <= cur
    requires Nest(lines, t, i + 1) && |t.stack| == d
    ensures Nest(lines, OpenFrom(t, d, cur, i, lines[i]), i + 1)
    ensures |OpenFrom(t, d, cur, i, lines[i]).stack| == cur
    decreases cur - d
  {
    if d < cur {
      var f := Frame(d + 1, i, lines[i].lineNo, lines[i].formula, None, None);
      PushNest(lines, t, f, i + 1);
      OpenFromNest(lines, Push(t, f), d + 1, cur, i);
    }
  }

  lemma {:induction false} CloseFromNest(lines: seq<ProofLineInput>, t: Tracker, d: int, cur: int, b: nat)
    requires 0 < b < |lines| && cur == DepthOf(lines[b]) && cur >= 0 && d >= cur
    requires Shape(lines, t, b) && Nest(lines, t, b) && |t.stack| == d
    ensures Shape(lines, CloseFrom(t, d, cur, b - 1, lines[b - 1].lineNo), b)
    ensures Nest(lines, CloseFrom(t, d, cur, b - 1, lines[b - 1].lineNo), b)
    ensures |CloseFrom(t, d, cur, b - 1, lines[b - 1].lineNo).stack| == cur
    decreases d - cur
  {
    if d > cur {
      PopShape(lines, t, b);
      PopNest(lines, t, b);
      CloseFromNest(lines, Pop(t, b - 1, lines[b - 1].lineNo), d - 1, cur, b);
    }
  }

  lemma StepNest(lines: seq<ProofLineInput>, t: Tracker, i: nat)
    requires i < |lines| && NonNegDepths(lines)
    requires Shape(lines, t, i) && Nest(lines, t, i) && |t.stack| == PrevDepthAt(lines, i)
    ensures Nest(lines, Step(t, lines, i), i + 1)
    ensures |Step(t, lines, i).stack| == DepthOf(lines[i])
  {
    var cur := DepthOf(lines[i]);
    var prev := PrevDepthAt(lines, i);
    if cur > prev {
      ExtendNest(lines, t, i);
      OpenFromNest(lines, t, prev, cur, i);
    } else if cur < prev {
      var t2 := CloseFrom(t, prev, cur, i - 1, lines[i - 1].lineNo);
      CloseFromNest(lines, t, prev, cur, i);
      ExtendNest(lines, t2, i);
    } else {
      ExtendNest(lines, t, i);
    }
  }

  lemma {:induction false} TrackNest(lines: seq<ProofLineInput>, i: nat)
    requires i <= |lines| && NonNegDepths(lines)
    ensures Nest(lines, TrackUpTo(lines, i), i)
    ensures |TrackUpTo(lines, i).stack| == PrevDepthAt(lines, i)
  {
    if i > 0 {
      TrackNest(lines, i - 1);
      TrackShape(lines, i - 1);
      StepNest(lines, TrackUpTo(lines, i - 1), i - 1);
    }
  }

  lemma {:induction false} CloseRestNest(lines: seq<ProofLineInput>, t: Tracker)
    requires |lines| > 0 && Shape(lines, t, |lines|) && Nest(lines, t, |lines|)
    ensures Nest(lines, CloseRest(t, |lines| - 1, lines[|lines| - 1].lineNo), |lines|)
    decreases |t.stack|
  {
    var n := |lines|;
    if t.stack != [] {
      PopShape(lines, t, n);
      PopNest(lines, t, n);
      CloseRestNest(lines, Pop(t, n - 1, lines[n - 1].lineNo));
    }
  }

  /**
   * With non-negative depths every frame is a subproof: a maximal run of
   * lines at its depth or deeper, entered from a shallower line.
   */
  lemma FramesAreSubproofs(lines: seq<ProofLineInput>)
    requires NonNegDepths(lines)
    ensures forall j :: 0 <= j < |FramesOf(lines)| ==> IsSubproof(lines, FramesOf(lines)[j])
  {
    var n := |lines|;
    if n > 0 {
      var t := TrackUpTo(lines, n);
      TrackShape(lines, n);
      TrackNest(lines, n);
      CloseRestNest(lines, t);
      FramesClosed(lines);
      var fs := FramesOf(lines);
      forall j | 0 <= j < |fs| ensures IsSubproof(lines, fs[j]) {
        assert FrameNest(lines, fs[j], n);
      }
    }
  }
}
