/**
 * The cooldown: one flag and one counter shared by both swipes and undo.
 * While it runs the whole gesture block is skipped, drawing included.
 */
module Cooldown {
  import opened Controller
  import opened Invariants

  /**
   * A frame during the cooldown changes no slide and no annotation, shows no
   * pointer, closes any open stroke and advances the counter, ending the
   * cooldown once the counter passes `Delay`.
   */
  lemma CooldownFrame(n: int, s: State, f: Frame)
    requires CursorOk(s) && s.buttonPressed
    ensures var r := Step(n, s, f);
      && r.imgNumber == s.imgNumber
      && r.annotations == s.annotations
      && r.annotationNumber == s.annotationNumber
      && !r.annotationStart
      && Pointer(s, f).None?
      && (s.counter + 1 > Delay ==> !r.buttonPressed && r.counter == 0)
      && (s.counter + 1 <= Delay ==> r.buttonPressed && r.counter == s.counter + 1)
  {
  }

  /**
   * From a cooldown at count `c`, the next `Delay - c` frames still lie
   * inside it and the frame after those ends it; none of them touches the
   * slide index or the annotations, whatever the hand does.
   */
  lemma {:induction false} CooldownWindow(n: int, s: State, frames: seq<Frame>)
    requires Valid(n, s) && s.buttonPressed
    requires |frames| <= Delay + 1 - s.counter
    ensures var r := Run(n, s, frames);
      && Valid(n, r)
      && r.imgNumber == s.imgNumber
      && r.annotations == s.annotations
      && r.annotationNumber == s.annotationNumber
      && (|frames| > 0 ==> !r.annotationStart)
      && (|frames| < Delay + 1 - s.counter ==> r.buttonPressed && r.counter == s.counter + |frames|)
      && (|frames| == Delay + 1 - s.counter ==> !r.buttonPressed && r.counter == 0)
    decreases |frames|
  {
    RunPreservesValid(n, s, frames);
    if |frames| > 0 {
      var s1 := Step(n, s, frames[0]);
      CooldownFrame(n, s, frames[0]);
      StepPreservesValid(n, s, frames[0]);
      if |frames| == 1 {
        assert frames[1..] == [];
      } else {
        CooldownWindow(n, s1, frames[1..]);
      }
    }
  }

  /**
   * Within any `Delay + 1` consecutive frames the slide index moves by at
   * most one: a second swipe inside the cooldown is ignored.
   */
  lemma {:induction false} OneSlideChangePerWindow(n: int, s: State, frames: seq<Frame>)
    requires Valid(n, s)
    requires |frames| <= Delay + 1
    ensures -1 <= Run(n, s, frames).imgNumber - s.imgNumber <= 1
    decreases |frames|
  {
    if |frames| > 0 {
      var s1 := Step(n, s, frames[0]);
      StepPreservesValid(n, s, frames[0]);
      if s1.imgNumber != s.imgNumber {
        assert !s.buttonPressed && s.counter == 0;
        assert s1.buttonPressed && s1.counter == 1;
        CooldownWindow(n, s1, frames[1..]);
      } else {
        OneSlideChangePerWindow(n, s1, frames[1..]);
      }
    }
  }
}
