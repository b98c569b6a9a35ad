/** Concrete frame sequences and what the loop makes of them. */
module Scenarios {
  import opened Results
  import opened Controller
  import opened Invariants
  import opened Cooldown
  import opened Navigation
  import opened Annotations
  import opened Overlay

  /** The index finger alone, below the threshold line, at `p`. */
  function DrawAt(p: Point): Frame {
    Frame(Some(Hand(400, IndexOnly, p)), 300)
  }

  /** Three fingers, the undo gesture. */
  function UndoGesture(): Frame {
    Frame(Some(Hand(400, IndexMiddleRing, Point(0, 0))), 300)
  }

  /** A frame with no hand. */
  function NoHand(): Frame {
    Frame(None, 300)
  }

  /** A swipe gesture with the hand above the threshold line. */
  function Swipe(fingers: seq<int>): Frame {
    Frame(Some(Hand(200, fingers, Point(0, 0))), 300)
  }

  /**
   * Three drawing frames then a frame without a hand: one list holds the three
   * points in order, followed by the empty list the stroke opened, and two
   * lines are drawn.
   */
  lemma ThreePointStroke(n: int, p1: Point, p2: Point, p3: Point)
    ensures var s := Run(n, Start(), [DrawAt(p1), DrawAt(p2), DrawAt(p3), NoHand()]);
      && s.annotations == [[p1, p2, p3], []]
      && !s.annotationStart
      && !s.buttonPressed
      && Segments(s.annotations) == [(p1, p2), (p2, p3)]
  {
    var frames := [DrawAt(p1), DrawAt(p2), DrawAt(p3)];
    assert AllDraw(frames);
    StrokeFromClosed(n, Start(), frames);
    assert frames[1..] == [DrawAt(p2), DrawAt(p3)];
    assert frames[1..][1..] == [DrawAt(p3)];
    assert Tips(frames[1..][1..]) == [p3];
    assert Tips(frames[1..]) == [p2, p3];
    assert Tips(frames) == [p1, p2, p3];
    assert [] + [p1, p2, p3] == [p1, p2, p3];
    assert AppendAt(Start().annotations + [[]], 0, [p1, p2, p3]) == [[p1, p2, p3], []];
    RunConcat(n, Start(), frames, [NoHand()]);
    assert frames + [NoHand()] == [DrawAt(p1), DrawAt(p2), DrawAt(p3), NoHand()];
  }

  /**
   * The first undo after that stroke removes the trailing empty list, not the
   * stroke: the drawn lines stay as they were.
   */
  lemma FirstUndoKeepsStroke(n: int, p1: Point, p2: Point, p3: Point)
    requires n >= 1
    ensures var before := Run(n, Start(), [DrawAt(p1), DrawAt(p2), DrawAt(p3), NoHand()]);
      var after := Step(n, before, UndoGesture());
      && after.annotations == [[p1, p2, p3]]
      && after.buttonPressed
      && Segments(after.annotations) == Segments(before.annotations)
  {
    var frames := [DrawAt(p1), DrawAt(p2), DrawAt(p3), NoHand()];
    ThreePointStroke(n, p1, p2, p3);
    ReachableValid(n, frames);
    var before := Run(n, Start(), frames);
    UndoRule(n, before, UndoGesture());
    assert [[p1, p2, p3], []][..1] == [[p1, p2, p3]];
  }

  /**
   * A second undo, once the cooldown of the first is over, removes the stroke
   * and leaves no list at all.
   */
  lemma SecondUndoRemovesStroke(n: int, p1: Point, p2: Point, p3: Point)
    requires n >= 1
    ensures var before := Run(n, Start(), [DrawAt(p1), DrawAt(p2), DrawAt(p3), NoHand()]);
      var undone := Run(n, Step(n, before, UndoGesture()), Wait(Delay));
      && !undone.buttonPressed
      && Step(n, undone, UndoGesture()).annotations == []
  {
    var frames := [DrawAt(p1), DrawAt(p2), DrawAt(p3), NoHand()];
    FirstUndoKeepsStroke(n, p1, p2, p3);
    ThreePointStroke(n, p1, p2, p3);
    ReachableValid(n, frames);
    var before := Run(n, Start(), frames);
    var once := Step(n, before, UndoGesture());
    StepPreservesValid(n, before, UndoGesture());
    UndoRule(n, before, UndoGesture());
    CooldownWindow(n, once, Wait(Delay));
    var undone := Run(n, once, Wait(Delay));
    UndoRule(n, undone, UndoGesture());
  }

  /**
   * One undo is enough for the next stroke to continue the old one: after the
   * undo and its cooldown, a drawing frame appends to the stroke's own list,
   * so a line joins its last point to the new one.
   */
  lemma UndoThenDrawExtendsStroke(n: int, p1: Point, p2: Point, p3: Point, q: Point)
    requires n >= 1
    ensures var before := Run(n, Start(), [DrawAt(p1), DrawAt(p2), DrawAt(p3), NoHand()]);
      var undone := Run(n, Step(n, before, UndoGesture()), Wait(Delay));
      var after := Step(n, undone, DrawAt(q));
      && after.annotations == [[p1, p2, p3, q], []]
      && Segments(after.annotations) == [(p1, p2), (p2, p3), (p3, q)]
  {
    var frames := [DrawAt(p1), DrawAt(p2), DrawAt(p3), NoHand()];
    FirstUndoKeepsStroke(n, p1, p2, p3);
    ReachableValid(n, frames);
    var before := Run(n, Start(), frames);
    var once := Step(n, before, UndoGesture());
    ThreePointStroke(n, p1, p2, p3);
    StepPreservesValid(n, before, UndoGesture());
    UndoRule(n, before, UndoGesture());
    CooldownWindow(n, once, Wait(Delay));
    var undone := Run(n, once, Wait(Delay));
    DrawFrameRule(n, undone, DrawAt(q));
    assert undone.annotations + [[]] == [[p1, p2, p3], []];
    assert [p1, p2, p3] + [q] == [p1, p2, p3, q];
    var a := [[p1, p2, p3, q], []];
    assert a[1..] == [[]];
    assert Segments([[]]) == [];
    assert StrokeSegments([p1, p2, p3, q]) == [(p1, p2), (p2, p3), (p3, q)];
  }

  /**
   * Once every list is undone, the next two strokes land in one list: the
   * first opens list 0 as the last list, the second appends to it again.
   */
  lemma StrokesMergeAfterFullUndo(n: int, s: State, p: Point, q: Point)
    requires CursorOk(s) && s.annotations == [] && !s.annotationStart && !s.buttonPressed
    ensures Run(n, s, [DrawAt(p), NoHand(), DrawAt(q), NoHand()]).annotations == [[p, q], []]
  {
    var s1 := Step(n, s, DrawAt(p));
    DrawFrameRule(n, s, DrawAt(p));
    assert s.annotations + [[]] == [[]];
    assert s1.annotations == AppendAt([[]], 0, [p]);
    assert [] + [p] == [p];
    assert s1.annotations == [[p]];
    var s2 := Step(n, s1, NoHand());
    var s3 := Step(n, s2, DrawAt(q));
    DrawFrameRule(n, s2, DrawAt(q));
    assert s2.annotations + [[]] == [[p], []];
    assert [p] + [q] == [p, q];
    assert s3.annotations == [[p, q], []];
    var frames := [DrawAt(p), NoHand(), DrawAt(q), NoHand()];
    assert frames[1..] == [NoHand(), DrawAt(q), NoHand()];
    assert frames[1..][1..] == [DrawAt(q), NoHand()];
    assert frames[1..][1..][1..] == [NoHand()];
    assert Run(n, s, frames) == Run(n, s1, frames[1..]);
    assert Run(n, s1, frames[1..]) == Run(n, s2, frames[1..][1..]);
    assert Run(n, s2, frames[1..][1..]) == Run(n, s3, [NoHand()]);
    assert Run(n, s3, [NoHand()]) == Step(n, s3, NoHand());
  }

  /**
   * Five slides, two right swipes and a left swipe, each followed by a full
   * cooldown, end on the second slide (index 1).
   */
  lemma RightRightLeft()
    ensures var block := (fingers: seq<int>) => [Swipe(fingers)] + Wait(Delay);
      Run(5, Start(), block(PinkyOnly) + block(PinkyOnly) + block(ThumbOnly)).imgNumber == 1
  {
    var right := [Swipe(PinkyOnly)] + Wait(Delay);
    var left := [Swipe(ThumbOnly)] + Wait(Delay);
    ReachableValid(5, []);
    var s0 := Start();
    SwipeRightThenWait(5, s0, Swipe(PinkyOnly));
    var s1 := Run(5, s0, right);
    SwipeRightThenWait(5, s1, Swipe(PinkyOnly));
    var s2 := Run(5, s1, right);
    SwipeLeftThenWait(5, s2, Swipe(ThumbOnly));
    RunConcat(5, s0, right, right);
    RunConcat(5, s0, right + right, left);
  }
}
