/**
 * The per-frame controller of the presentation loop: one camera frame's hand
 * observation updates the slide index, the annotation lists and the shared
 * cooldown. Camera, hand tracking and drawing are outside; a frame arrives as
 * the tracker's verdict (hand or none, its centre height, the raised-finger
 * vector, the remapped index fingertip) and the gesture threshold in force.
 */
module Controller {
  import opened Results

  /** Frames the cooldown lasts after a swipe or an undo. */
  const Delay: int := 30

  /** Raised-finger vectors, thumb first, as the tracker reports them. */
  const ThumbOnly: seq<int> := [1, 0, 0, 0, 0]
  const PinkyOnly: seq<int> := [0, 0, 0, 0, 1]
  const IndexAndMiddle: seq<int> := [0, 1, 1, 0, 0]
  const IndexOnly: seq<int> := [0, 1, 0, 0, 0]
  const IndexMiddleRing: seq<int> := [0, 1, 1, 1, 0]

  /** A pixel position on the slide. */
  datatype Point = Point(x: int, y: int)

  /** The one hand the tracker reports. */
  datatype Hand = Hand(cy: int, fingers: seq<int>, indexFinger: Point)

  /** One frame's input: the hand, if any, and the gesture threshold line. */
  datatype Frame = Frame(hand: Option<Hand>, threshold: int)

  /**
   * The loop's variables. `annotations` is the list of point lists drawn on
   * the current slide; `annotationNumber` the cursor of the list being drawn
   * (read with Python's negative indexing); `annotationStart` whether a
   * stroke is open; `buttonPressed` and `counter` the cooldown.
   */
  datatype State = State(
    imgNumber: int,
    annotations: seq<seq<Point>>,
    annotationNumber: int,
    annotationStart: bool,
    buttonPressed: bool,
    counter: int)

  /** The values the loop starts from. */
  function Start(): State {
    State(0, [[]], -1, false, false, 0)
  }

  /**
   * The stroke cursor is one less than the index of the last list, and an
   * open stroke has a list to append to.
   */
  predicate CursorOk(s: State) {
    && |s.annotations| == s.annotationNumber + 2
    && (s.annotationStart ==> s.annotationNumber >= -1)
  }

  /** Every state the loop reaches with `n` slides. */
  predicate Valid(n: int, s: State) {
    && 0 <= s.imgNumber < n
    && 0 <= s.counter <= Delay
    && (s.buttonPressed <==> s.counter >= 1)
    && CursorOk(s)
  }

  /** Python's `xs[i]` position for a possibly negative index. */
  function PyIndex(i: int, len: nat): (k: nat)
    requires -(len as int) <= i < len
    ensures k < len
    ensures i < 0 ==> k + (-i) == len
    ensures 0 <= i ==> k == i
  {
    if i < 0 then len + i else i
  }

  /** The list an open stroke appends to, `annotations[annotationNumber]`. */
  function StrokeTarget(s: State): (t: nat)
    requires CursorOk(s) && s.annotationStart
    ensures t < |s.annotations|
  {
    PyIndex(s.annotationNumber, |s.annotations|)
  }

  /** The fresh annotation state after a slide change. */
  function ClearAnnotations(s: State): State {
    s.(annotations := [[]], annotationNumber := -1, annotationStart := false)
  }

  /** Swipe left: start the cooldown, and go back one slide unless on the first. */
  function SwipeLeft(s: State): State {
    if s.imgNumber > 0 then
      ClearAnnotations(s.(buttonPressed := true, imgNumber := s.imgNumber - 1))
    else
      s.(buttonPressed := true)
  }

  /** Swipe right: start the cooldown, and go on one slide unless on the last. */
  function SwipeRight(n: int, s: State): State {
    if s.imgNumber < n - 1 then
      ClearAnnotations(s.(buttonPressed := true, imgNumber := s.imgNumber + 1))
    else
      s.(buttonPressed := true)
  }

  /**
   * A drawing frame: open a stroke if none is open (advance the cursor and
   * append an empty list), then append the point to the cursor's list.
   */
  function DrawPoint(s: State, p: Point): (r: State)
    requires CursorOk(s)
    ensures CursorOk(r) && r.annotationStart
  {
    var o :=
      if s.annotationStart then s
      else s.(annotationStart := true,
              annotationNumber := s.annotationNumber + 1,
              annotations := s.annotations + [[]]);
    var t := PyIndex(o.annotationNumber, |o.annotations|);
    o.(annotations := o.annotations[t := o.annotations[t] + [p]])
  }

  /** Undo: drop the last list, if there is one, and start the cooldown. */
  function Undo(s: State): State {
    if |s.annotations| > 0 then
      s.(annotations := s.annotations[..|s.annotations| - 1],
         annotationNumber := s.annotationNumber - 1,
         buttonPressed := true)
    else
      s
  }

  /** The gesture block, run when a hand is seen outside the cooldown. */
  function Gestures(n: int, s: State, h: Hand, threshold: int): (r: State)
    requires CursorOk(s)
    ensures CursorOk(r)
  {
    var s1 := if h.cy <= threshold && h.fingers == ThumbOnly then SwipeLeft(s) else s;
    var s2 := if h.cy <= threshold && h.fingers == PinkyOnly then SwipeRight(n, s1) else s1;
    var s3 := if h.fingers == IndexOnly then DrawPoint(s2, h.indexFinger) else s2.(annotationStart := false);
    if h.fingers == IndexMiddleRing then
      assert IndexMiddleRing[2] != IndexOnly[2];
      Undo(s3)
    else
      s3
  }

  /** The cooldown clock, advanced at the end of every frame. */
  function Tick(s: State): State {
    if !s.buttonPressed then s
    else if s.counter + 1 > Delay then s.(counter := 0, buttonPressed := false)
    else s.(counter := s.counter + 1)
  }

  /**
   * One frame of the loop with `n` slides. Without a hand, or during the
   * cooldown, no gesture is handled and any open stroke is closed.
   */
  function Step(n: int, s: State, f: Frame): (r: State)
    requires CursorOk(s)
    ensures CursorOk(r)
  {
    var g :=
      if f.hand.Some? && !s.buttonPressed then Gestures(n, s, f.hand.value, f.threshold)
      else s.(annotationStart := false);
    Tick(g)
  }

  /** The state after a sequence of frames. */
  function Run(n: int, s: State, frames: seq<Frame>): (r: State)
    requires CursorOk(s)
    ensures CursorOk(r)
    decreases |frames|
  {
    if |frames| == 0 then s else Run(n, Step(n, s, frames[0]), frames[1..])
  }

  /**
   * The fingertip marker drawn on the slide this frame: shown for the
   * pointer and the drawing gestures, never during the cooldown.
   */
  function Pointer(s: State, f: Frame): Option<Point> {
    if f.hand.Some? && !s.buttonPressed
       && (f.hand.value.fingers == IndexAndMiddle || f.hand.value.fingers == IndexOnly)
    then Some(f.hand.value.indexFinger)
    else None
  }
}
