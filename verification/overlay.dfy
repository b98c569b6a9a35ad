/** What is drawn over the slide each frame: annotation lines and the slide label. */
module Overlay {
  import opened Controller
  import opened Decimal
  import opened Invariants

  /** The lines drawn for one list: each point joined to the one before it. */
  function StrokeSegments(pts: seq<Point>): seq<(Point, Point)> {
    if |pts| <= 1 then [] else seq(|pts| - 1, j requires 0 <= j < |pts| - 1 => (pts[j], pts[j + 1]))
  }

  /** All lines drawn over the slide, list by list in list order. */
  function Segments(a: seq<seq<Point>>): seq<(Point, Point)>
    decreases |a|
  {
    if |a| == 0 then [] else StrokeSegments(a[0]) + Segments(a[1..])
  }

  /** The lines of two runs of lists are drawn one after the other. */
  lemma {:induction false} SegmentsConcat(a: seq<seq<Point>>, b: seq<seq<Point>>)
    ensures Segments(a + b) == Segments(a) + Segments(b)
    decreases |a|
  {
    if |a| == 0 {
      assert a + b == b;
    } else {
      assert (a + b)[0] == a[0];
      assert (a + b)[1..] == a[1..] + b;
      SegmentsConcat(a[1..], b);
    }
  }

  /** A list with fewer than two points draws nothing, wherever it stands. */
  lemma ShortListInvisible(a: seq<seq<Point>>, i: nat)
    requires i < |a| && |a[i]| <= 1
    ensures Segments(a) == Segments(a[..i] + a[i + 1..])
  {
    var pre, mid, post := a[..i], [a[i]] + a[i + 1..], a[i + 1..];
    assert a == pre + mid;
    SegmentsCons(a[i], post);
    SegmentsConcat(pre, mid);
    SegmentsConcat(pre, post);
  }

  /** A list placed in front is drawn before the rest. */
  lemma SegmentsCons(pts: seq<Point>, rest: seq<seq<Point>>)
    ensures Segments([pts] + rest) == StrokeSegments(pts) + Segments(rest)
  {
    assert ([pts] + rest)[1..] == rest;
  }

  /** The label `f"Slide {imgNumber + 1}/{n}"`. */
  function SlideLabel(imgNumber: int, n: int): string {
    "Slide " + ShowInt(imgNumber + 1) + "/" + ShowInt(n)
  }

  /**
   * In every state the loop reaches, the label reads "Slide k/n" with
   * `1 <= k <= n`, both numbers without a sign.
   */
  lemma ReachableLabel(n: int, frames: seq<Frame>)
    requires n >= 1
    ensures var s := Run(n, Start(), frames);
      && 1 <= s.imgNumber + 1 <= n
      && SlideLabel(s.imgNumber, n) == "Slide " + ShowNat(s.imgNumber + 1) + "/" + ShowNat(n)
  {
    ReachableValid(n, frames);
  }
}
