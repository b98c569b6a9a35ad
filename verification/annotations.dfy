/**
 * The annotation lists: drawing with the index finger, closing strokes, and
 * undo with three fingers.
 */
module Annotations {
  import opened Results
  import opened Controller
  import opened Invariants
  import opened Navigation

  /** The hand shows the index finger alone: the drawing gesture. */
  predicate DrawFrame(f: Frame) {
    f.hand.Some? && f.hand.value.fingers == IndexOnly
  }

  /** The hand shows index, middle and ring fingers: the undo gesture. */
  predicate UndoFrame(f: Frame) {
    f.hand.Some? && f.hand.value.fingers == IndexMiddleRing
  }

  predicate AllDraw(frames: seq<Frame>) {
    forall i :: 0 <= i < |frames| ==> DrawFrame(frames[i])
  }

  /** The fingertip points of a run of drawing frames, in frame order. */
  function Tips(frames: seq<Frame>): (r: seq<Point>)
    requires AllDraw(frames)
    ensures |r| == |frames|
    ensures forall i :: 0 <= i < |frames| ==> r[i] == frames[i].hand.value.indexFinger
  {
    if |frames| == 0 then
      []
    else
      var rest := Tips(frames[1..]);
      assert forall i :: 1 <= i < |frames| ==> frames[i] == frames[1..][i - 1];
      [frames[0].hand.value.indexFinger] + rest
  }

  /** Where the first point of a new stroke goes: the last existing list, or a fresh one if there is none. */
  function OpenTarget(annotations: seq<seq<Point>>): nat {
    if |annotations| == 0 then 0 else |annotations| - 1
  }

  /** The lists with `pts` appended to list `t`. */
  function AppendAt(a: seq<seq<Point>>, t: nat, pts: seq<Point>): seq<seq<Point>>
    requires t < |a|
  {
    a[t := a[t] + pts]
  }

  /**
   * A drawing frame outside the cooldown. With a stroke open it appends the
   * fingertip to the cursor's list and changes nothing else. With none open
   * it advances the cursor, appends an empty list, and appends the fingertip
   * to the list at `OpenTarget`: the list that was last before, so the fresh
   * empty list stays last.
   */
  lemma DrawFrameRule(n: int, s: State, f: Frame)
    requires CursorOk(s) && !s.buttonPressed && DrawFrame(f)
    ensures var r := Step(n, s, f); var p := f.hand.value.indexFinger;
      && r.annotationStart
      && r.imgNumber == s.imgNumber && !r.buttonPressed && r.counter == s.counter
      && (s.annotationStart ==>
            && r.annotationNumber == s.annotationNumber
            && r.annotations == AppendAt(s.annotations, StrokeTarget(s), [p]))
      && (!s.annotationStart ==>
            && r.annotationNumber == s.annotationNumber + 1
            && StrokeTarget(r) == OpenTarget(s.annotations)
            && r.annotations == AppendAt(s.annotations + [[]], OpenTarget(s.annotations), [p]))
  {
    assert IndexOnly[0] != ThumbOnly[0] && IndexOnly[1] != PinkyOnly[1];
    assert IndexOnly[2] != IndexMiddleRing[2];
  }

  /** A drawing frame while a stroke is open appends its fingertip and changes nothing else. */
  lemma DrawContinues(n: int, s: State, f: Frame)
    requires CursorOk(s) && s.annotationStart && !s.buttonPressed && DrawFrame(f)
    ensures Step(n, s, f) == s.(annotations := AppendAt(s.annotations, StrokeTarget(s), [f.hand.value.indexFinger]))
  {
    DrawFrameRule(n, s, f);
  }

  lemma AppendTwice(a: seq<seq<Point>>, t: nat, xs: seq<Point>, ys: seq<Point>)
    requires t < |a|
    ensures AppendAt(AppendAt(a, t, xs), t, ys) == AppendAt(a, t, xs + ys)
  {
    assert a[t] + xs + ys == a[t] + (xs + ys);
  }

  /**
   * While a stroke stays open, a run of drawing frames appends its fingertips,
   * in order, to the same list and changes nothing else.
   */
  lemma {:induction false} StrokeRun(n: int, s: State, frames: seq<Frame>)
    requires CursorOk(s) && s.annotationStart && !s.buttonPressed
    requires AllDraw(frames)
    ensures Run(n, s, frames) == s.(annotations := AppendAt(s.annotations, StrokeTarget(s), Tips(frames)))
    decreases |frames|
  {
    var t := StrokeTarget(s);
    if |frames| == 0 {
      assert s.annotations[t] + [] == s.annotations[t];
      assert s.annotations[t := s.annotations[t]] == s.annotations;
    } else {
      var p := frames[0].hand.value.indexFinger;
      DrawContinues(n, s, frames[0]);
      var s1 := Step(n, s, frames[0]);
      assert AllDraw(frames[1..]);
      StrokeRun(n, s1, frames[1..]);
      AppendTwice(s.annotations, t, [p], Tips(frames[1..]));
    }
  }

  /**
   * A run of drawing frames after a closed stroke opens one new list slot and
   * puts all its fingertips, in frame order, into the list at `OpenTarget`.
   */
  lemma StrokeFromClosed(n: int, s: State, frames: seq<Frame>)
    requires CursorOk(s) && !s.annotationStart && !s.buttonPressed
    requires 1 <= |frames| && AllDraw(frames)
    ensures var r := Run(n, s, frames);
      && r.annotationStart
      && r.annotationNumber == s.annotationNumber + 1
      && r.imgNumber == s.imgNumber
      && !r.buttonPressed && r.counter == s.counter
      && r.annotations == AppendAt(s.annotations + [[]], OpenTarget(s.annotations), Tips(frames))
  {
    var s1 := Step(n, s, frames[0]);
    var grown := s.annotations + [[]];
    var t := OpenTarget(s.annotations);
    DrawFrameRule(n, s, frames[0]);
    assert AllDraw(frames[1..]);
    StrokeRun(n, s1, frames[1..]);
    assert grown[t := grown[t] + [frames[0].hand.value.indexFinger]][t] + Tips(frames[1..])
           == grown[t] + Tips(frames);
  }

  /**
   * Any frame that does not draw closes the stroke. Unless it changes the
   * slide or fires an undo it leaves the annotation lists and the cursor as
   * they were: closing removes no point.
   */
  lemma NonDrawFrameCloses(n: int, s: State, f: Frame)
    requires CursorOk(s)
    requires !(Active(s, f) && DrawFrame(f))
    ensures var r := Step(n, s, f);
      && !r.annotationStart
      && (r.imgNumber == s.imgNumber && !(Active(s, f) && UndoFrame(f)) ==>
            r.annotations == s.annotations && r.annotationNumber == s.annotationNumber)
  {
  }

  /**
   * Within one slide and without an undo, no frame removes a point: every
   * list keeps its points as a prefix and no list disappears.
   */
  lemma PointsKept(n: int, s: State, f: Frame)
    requires CursorOk(s)
    ensures var r := Step(n, s, f);
      r.imgNumber == s.imgNumber && !(Active(s, f) && UndoFrame(f)) ==>
        && |s.annotations| <= |r.annotations|
        && forall i :: 0 <= i < |s.annotations| ==> s.annotations[i] <= r.annotations[i]
  {
    if Active(s, f) && DrawFrame(f) {
      DrawFrameRule(n, s, f);
    }
  }

  /**
   * Undo outside the cooldown removes exactly the last list, whatever it
   * holds, moves the cursor back by one and starts the cooldown; with no list
   * left it changes nothing but closing the stroke, and starts no cooldown.
   */
  lemma UndoRule(n: int, s: State, f: Frame)
    requires Valid(n, s) && !s.buttonPressed && UndoFrame(f)
    ensures var r := Step(n, s, f); var a := s.annotations;
      && r.imgNumber == s.imgNumber
      && !r.annotationStart
      && (|a| > 0 ==>
            && r.annotations == a[..|a| - 1]
            && r.annotationNumber == s.annotationNumber - 1
            && r.buttonPressed && r.counter == 1)
      && (|a| == 0 ==> r == s.(annotationStart := false))
  {
    assert IndexMiddleRing[0] != ThumbOnly[0] && IndexMiddleRing[1] != PinkyOnly[1];
    assert IndexMiddleRing[2] != IndexOnly[2];
  }

  /**
   * Outside the cooldown, a frame starts one exactly when it is an active
   * swipe above the line, or an undo with a list left to remove. A thumb
   * below the line, a pointer, a drawing stroke or an undo with nothing to
   * remove starts none.
   */
  lemma CooldownStart(n: int, s: State, f: Frame)
    requires Valid(n, s) && !s.buttonPressed
    ensures Step(n, s, f).buttonPressed <==>
              Active(s, f) && (LeftSwipe(f) || RightSwipe(f) || (UndoFrame(f) && |s.annotations| > 0))
  {
    assert ThumbOnly[0] != PinkyOnly[0];
    assert IndexMiddleRing[0] != ThumbOnly[0] && IndexMiddleRing[1] != PinkyOnly[1];
  }

  /**
   * On a drawing frame the fingertip marker sits on the point the frame has
   * just appended: the last point of the list the open stroke writes to.
   */
  lemma MarkerOnAppendedPoint(n: int, s: State, f: Frame)
    requires CursorOk(s) && Active(s, f) && DrawFrame(f)
    ensures var r := Step(n, s, f); var t := StrokeTarget(r);
      && 1 <= |r.annotations[t]|
      && Pointer(s, f) == Some(r.annotations[t][|r.annotations[t]| - 1])
  {
    DrawFrameRule(n, s, f);
  }

  /**
   * The pointer gesture only shows the marker: the frame closes the stroke
   * and changes nothing else.
   */
  lemma PointerFrameOnlyCloses(n: int, s: State, f: Frame)
    requires CursorOk(s) && Active(s, f) && f.hand.value.fingers == IndexAndMiddle
    ensures Step(n, s, f) == s.(annotationStart := false)
    ensures Pointer(s, f) == Some(f.hand.value.indexFinger)
  {
    assert IndexAndMiddle[0] != ThumbOnly[0] && IndexAndMiddle[1] != PinkyOnly[1];
    assert IndexAndMiddle[2] != IndexOnly[2] && IndexAndMiddle[3] != IndexMiddleRing[3];
  }
}
