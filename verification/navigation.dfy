/** Slide navigation: thumb and pinky swipes above the threshold line. */
module Navigation {
  import opened Results
  import opened Controller
  import opened Invariants
  import opened Cooldown

  /** A hand is seen and no cooldown runs, so the gesture block executes. */
  predicate Active(s: State, f: Frame) {
    f.hand.Some? && !s.buttonPressed
  }

  /** Thumb alone, hand centre at or above the threshold line. */
  predicate LeftSwipe(f: Frame) {
    f.hand.Some? && f.hand.value.cy <= f.threshold && f.hand.value.fingers == ThumbOnly
  }

  /** Pinky alone, hand centre at or above the threshold line. */
  predicate RightSwipe(f: Frame) {
    f.hand.Some? && f.hand.value.cy <= f.threshold && f.hand.value.fingers == PinkyOnly
  }

  function Min(a: int, b: int): int {
    if a <= b then a else b
  }

  /**
   * A left swipe always starts the cooldown. Off the first slide it goes back
   * one slide with fresh annotations; on the first slide nothing else changes.
   */
  lemma SwipeLeftRule(n: int, s: State, f: Frame)
    requires Valid(n, s) && !s.buttonPressed && LeftSwipe(f)
    ensures var r := Step(n, s, f);
      && r.buttonPressed && r.counter == 1
      && !r.annotationStart
      && (s.imgNumber > 0 ==>
            r.imgNumber == s.imgNumber - 1 && r.annotations == [[]] && r.annotationNumber == -1)
      && (s.imgNumber == 0 ==>
            r.imgNumber == 0 && r.annotations == s.annotations && r.annotationNumber == s.annotationNumber)
  {
  }

  /**
   * A right swipe always starts the cooldown. Before the last slide it goes on
   * one slide with fresh annotations; on the last slide nothing else changes.
   */
  lemma SwipeRightRule(n: int, s: State, f: Frame)
    requires Valid(n, s) && !s.buttonPressed && RightSwipe(f)
    ensures var r := Step(n, s, f);
      && r.buttonPressed && r.counter == 1
      && !r.annotationStart
      && (s.imgNumber < n - 1 ==>
            r.imgNumber == s.imgNumber + 1 && r.annotations == [[]] && r.annotationNumber == -1)
      && (s.imgNumber == n - 1 ==>
            r.imgNumber == n - 1 && r.annotations == s.annotations && r.annotationNumber == s.annotationNumber)
  {
  }

  /**
   * The slide index changes exactly on an active left swipe off the first
   * slide or an active right swipe before the last one; it then moves by one
   * and leaves a fresh annotation state and a running cooldown.
   */
  lemma SlideChangeRule(n: int, s: State, f: Frame)
    requires Valid(n, s)
    ensures var r := Step(n, s, f);
      && (r.imgNumber != s.imgNumber <==>
            Active(s, f) && ((LeftSwipe(f) && s.imgNumber > 0) || (RightSwipe(f) && s.imgNumber < n - 1)))
      && (r.imgNumber == s.imgNumber - 1 || r.imgNumber == s.imgNumber || r.imgNumber == s.imgNumber + 1)
      && (r.imgNumber != s.imgNumber ==>
            r.annotations == [[]] && r.annotationNumber == -1 && !r.annotationStart && r.buttonPressed)
  {
    assert ThumbOnly[0] != PinkyOnly[0];
  }

  /** `k` frames in which no hand is seen. */
  function Wait(k: nat): (r: seq<Frame>)
    ensures |r| == k
    ensures forall i :: 0 <= i < k ==> r[i].hand.None?
  {
    seq(k, i => Frame(None, 0))
  }

  /**
   * A right swipe followed by `Delay` frames moves one slide on, capped at the
   * last, and the cooldown is over afterwards.
   */
  lemma SwipeRightThenWait(n: int, s: State, f: Frame)
    requires Valid(n, s) && !s.buttonPressed && RightSwipe(f)
    ensures var r := Run(n, s, [f] + Wait(Delay));
      Valid(n, r) && !r.buttonPressed && r.imgNumber == Min(s.imgNumber + 1, n - 1)
  {
    var s1 := Step(n, s, f);
    SwipeRightRule(n, s, f);
    StepPreservesValid(n, s, f);
    assert ([f] + Wait(Delay))[1..] == Wait(Delay);
    CooldownWindow(n, s1, Wait(Delay));
  }

  /**
   * A left swipe followed by `Delay` frames moves one slide back, stopping at
   * the first, and the cooldown is over afterwards.
   */
  lemma SwipeLeftThenWait(n: int, s: State, f: Frame)
    requires Valid(n, s) && !s.buttonPressed && LeftSwipe(f)
    ensures var r := Run(n, s, [f] + Wait(Delay));
      Valid(n, r) && !r.buttonPressed && r.imgNumber == if s.imgNumber > 0 then s.imgNumber - 1 else 0
  {
    var s1 := Step(n, s, f);
    SwipeLeftRule(n, s, f);
    StepPreservesValid(n, s, f);
    assert ([f] + Wait(Delay))[1..] == Wait(Delay);
    CooldownWindow(n, s1, Wait(Delay));
  }

  /** `k` right swipes, each followed by a full cooldown. */
  function RightSwipes(f: Frame, k: nat): (r: seq<Frame>)
    decreases k
  {
    if k == 0 then [] else [f] + Wait(Delay) + RightSwipes(f, k - 1)
  }

  /**
   * After `k` spaced right swipes the index is `min(i + k, n - 1)`: each swipe
   * advances one slide until the last, where further swipes change nothing.
   */
  lemma {:induction false} RepeatedRightSwipes(n: int, s: State, f: Frame, k: nat)
    requires Valid(n, s) && !s.buttonPressed && RightSwipe(f)
    ensures var r := Run(n, s, RightSwipes(f, k));
      Valid(n, r) && !r.buttonPressed && r.imgNumber == Min(s.imgNumber + k, n - 1)
    decreases k
  {
    if k > 0 {
      var block := [f] + Wait(Delay);
      SwipeRightThenWait(n, s, f);
      var s1 := Run(n, s, block);
      RunConcat(n, s, block, RightSwipes(f, k - 1));
      RepeatedRightSwipes(n, s1, f, k - 1);
    }
  }
}
