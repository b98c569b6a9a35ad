# Gesture-controlled slide presenter: a Dafny model of its core

The program shows exported PowerPoint slides full-screen and lets a presenter
drive them with hand gestures in front of a webcam. Its core is the loop in
`PresentationApp.run_presentation`. Each camera frame yields the hand tracker's
verdict: a hand or none, the height `cy` of the hand centre, the raised-finger
vector, and the index fingertip. The loop turns that verdict into updates of
six variables:

- `imgNumber`: the slide index;
- `annotations`: the list of point lists drawn on the current slide;
- `annotationNumber`: the stroke cursor;
- `annotationStart`: whether a stroke is open;
- `buttonPressed` and `counter`: the cooldown.

The gestures are:

- thumb alone above the threshold line: previous slide;
- pinky alone above the line: next slide;
- index finger alone: draw;
- index and middle: pointer;
- index, middle and ring: undo.

A swipe or an undo starts a cooldown of `delay = 30` frames. During the
cooldown the whole gesture block is skipped.

A second, smaller part names and orders the slide images:

- the export writes `slide1.png` .. `slideN.png`;
- the files are renamed to `1.png` .. `N.png`, in the order of the number
  between `slide` and `.png`;
- the presentation reads them back sorted by the integer value of the file
  stem.

The model is functional. `Controller.Step(n, s, f)` is one iteration of the
loop as a pure function from a `State` and a `Frame` to the next `State`, and
`Controller.Run` folds it over a sequence of frames. The file-name logic is a
set of pure string functions:

- `str(i)` and `int(s)`: `Decimal`;
- `lower`, `endswith`, `split` and `os.path.splitext`: `Text`;
- `sorted(key=...)`: `KeySort`;
- the names and the rename plan: `SlideFiles`.

Modules:

| file | module | contents |
|---|---|---|
| results.dfy | `Results` | `Option` and `Result` |
| controller.dfy | `Controller` | state, frame, the per-frame step and its gesture parts |
| invariants.dfy | `Invariants` | the state invariant and its preservation over traces |
| cooldown.dfy | `Cooldown` | what a frame does during the cooldown, and the cooldown window |
| navigation.dfy | `Navigation` | swipe rules and repeated swipes |
| annotations.dfy | `Annotations` | drawing, stroke closing, undo |
| overlay.dfy | `Overlay` | the drawn line segments and the slide label |
| scenarios.dfy | `Scenarios` | concrete frame sequences |
| decimal.dfy | `Decimal` | decimal rendering and parsing of integers |
| text.dfy | `Text` | the string operations the naming uses |
| keysort.dfy | `KeySort` | sorting by an integer key |
| slide_files.dfy | `SlideFiles` | export names, rename plan, read-back order |

Some behaviour of the code is easy to misread; the model keeps it as written:

- **Drawn points go to the second-to-last list.** Opening a stroke advances
  `annotationNumber` and appends an empty list, so `len(annotations) ==
  annotationNumber + 2` always holds. The point is then appended to
  `annotations[annotationNumber]`, which is the list before the fresh empty
  one. Consequences:
  - The first undo after a stroke removes only the trailing empty list. The
    drawn lines stay (`Scenarios.FirstUndoKeepsStroke`); a second undo removes
    the stroke (`Scenarios.SecondUndoRemovesStroke`).
  - That first undo also moves the cursor back onto the stroke's own list. The
    next stroke therefore continues the old one: its first point is joined to
    the old stroke's last point by a line
    (`Scenarios.UndoThenDrawExtendsStroke`).
  - After every list has been undone the cursor is -2, read with Python's
    negative indexing, and the next two strokes land in one list
    (`Scenarios.StrokesMergeAfterFullUndo`).
- **The cooldown suppresses drawing and the pointer too**, not only
  navigation.
- **The counter counts up** from 0. It ends the cooldown when it exceeds 30, so
  the cooldown covers the swipe frame plus 30 further frames.
- **A swipe at the first or last slide still starts the cooldown.** Only an
  active swipe above the line, or an undo with a list to remove, starts one
  (`Annotations.CooldownStart`).
- **The tracker's output is trusted.** No observation is checked or rejected.
  The slide index stays in range only because of the bounds checks at
  GUI.py:212 and GUI.py:220.

## Model

| member | source | states |
|---|---|---|
| Controller.Step | GUI.py:197-254 | one frame keeps the stroke cursor valid: `len(annotations) == annotationNumber + 2`, so `annotations[annotationNumber]` never raises |
| Controller.Run | GUI.py:175-254 | any number of frames keeps the stroke cursor valid |
| Controller.DrawPoint | GUI.py:229-235 | a drawing frame leaves a stroke open with the cursor still valid, whether or not one was open before |
| Controller.Gestures | GUI.py:208-245 | the gesture block (swipes, draw, undo) keeps the stroke cursor valid |
| Controller.PyIndex | GUI.py:235 | Python's list index: a non-negative index is itself, a negative one `-k` is the k-th position from the end, and both land inside the list |
| Controller.StrokeTarget | GUI.py:235 | the list an open stroke appends to exists |
| Invariants.StepPreservesValid | GUI.py:197-254 | one frame keeps `0 <= imgNumber < n`, `0 <= counter <= 30`, `buttonPressed` exactly when `counter >= 1`, and the cursor invariant |
| Invariants.RunPreservesValid | GUI.py:175-254 | the same for any sequence of frames |
| Invariants.ReachableValid | GUI.py:159-172 | from the initial values, with at least one slide, every reachable state satisfies that invariant |
| Invariants.RunConcat | GUI.py:175-254 | running two stretches of frames equals running their concatenation |
| Navigation.SwipeLeftRule | GUI.py:208-216 | thumb alone at or above the line starts the cooldown; off the first slide it goes back one slide and resets the annotations to `[[]]`, cursor -1; on the first slide nothing else changes |
| Navigation.SwipeRightRule | GUI.py:217-224 | pinky alone at or above the line starts the cooldown; before the last slide it goes on one slide and resets the annotations; on the last slide nothing else changes |
| Navigation.SlideChangeRule | GUI.py:197-224 | the index changes iff an active left swipe off the first slide or right swipe before the last one is seen; it then moves by exactly one, the annotations are fresh and the cooldown runs |
| Navigation.SwipeRightThenWait | GUI.py:217-254 | a right swipe and 30 frames advance one slide, capped at the last, and end the cooldown |
| Navigation.SwipeLeftThenWait | GUI.py:208-254 | a left swipe and 30 frames go back one slide, stopping at the first, and end the cooldown |
| Navigation.RepeatedRightSwipes | GUI.py:217-224 | k spaced right swipes leave the index at `min(i + k, n - 1)` |
| Cooldown.CooldownFrame | GUI.py:197-254 | during the cooldown a frame changes no slide and no annotation, shows no pointer, closes the stroke and advances the counter, ending the cooldown past 30 |
| Cooldown.CooldownWindow | GUI.py:250-254 | from count c, the next `30 - c` frames stay in the cooldown with the counter at `c + k`, the frame after ends it, none touches slide or annotations, and the stroke is closed afterwards |
| Cooldown.OneSlideChangePerWindow | GUI.py:197-254 | within any 31 consecutive frames the slide index moves by at most one |
| Annotations.DrawFrameRule | GUI.py:229-236 | a drawing frame outside the cooldown appends the fingertip to the cursor's list; with no stroke open it first advances the cursor and appends an empty list, and the point goes to the list that was last before |
| Annotations.DrawContinues | GUI.py:229-235 | with a stroke open, a drawing frame appends its fingertip and changes nothing else |
| Annotations.StrokeRun | GUI.py:229-235 | consecutive drawing frames append their fingertips, in frame order, to the same list and change nothing else |
| Annotations.StrokeFromClosed | GUI.py:229-235 | a run of drawing frames after a closed stroke opens exactly one new list and puts all its points, in order, into one list |
| Annotations.Tips | GUI.py:229-235 | one point per drawing frame: point i is frame i's fingertip |
| Annotations.NonDrawFrameCloses | GUI.py:238-248 | any frame that does not draw closes the stroke and, barring a slide change or undo, leaves lists and cursor as they were |
| Annotations.PointsKept | GUI.py:226-248 | within one slide and without an undo, no list disappears and every list keeps its points as a prefix |
| Annotations.UndoRule | GUI.py:241-245 | undo outside the cooldown removes exactly the last list, moves the cursor back one and starts the cooldown; with no list it changes nothing and starts no cooldown |
| Annotations.CooldownStart | GUI.py:208-245 | outside the cooldown, a frame starts one exactly when it is an active thumb or pinky swipe at or above the line, or an undo with a list to remove |
| Annotations.MarkerOnAppendedPoint | GUI.py:229-236 | on an active drawing frame the fingertip marker sits on the point the frame has just appended, the last point of the stroke's list |
| Annotations.PointerFrameOnlyCloses | GUI.py:226-239 | an active index-and-middle frame shows the marker at the fingertip, closes the stroke and changes nothing else |
| Overlay.SegmentsConcat | GUI.py:257-260 | the lines of two runs of lists are the lines of each, in order |
| Overlay.SegmentsCons | GUI.py:257-260 | a list in front is drawn before the rest |
| Overlay.ShortListInvisible | GUI.py:257-260 | a list of at most one point draws no line, wherever it stands |
| Overlay.ReachableLabel | GUI.py:263 | in every reachable state the label reads `Slide k/n` with `1 <= k <= n`, both numbers unsigned |
| Scenarios.ThreePointStroke | GUI.py:229-260 | three drawing frames and a handless frame give `[[p1, p2, p3], []]` and two drawn lines |
| Scenarios.FirstUndoKeepsStroke | GUI.py:241-245 | the first undo after that stroke removes only the trailing empty list |
| Scenarios.SecondUndoRemovesStroke | GUI.py:241-254 | after the cooldown a second undo removes the stroke |
| Scenarios.UndoThenDrawExtendsStroke | GUI.py:229-260 | one undo after a stroke and its cooldown, then a drawing frame at q, give `[[p1, p2, p3, q], []]`, with a line from p3 to q |
| Scenarios.StrokesMergeAfterFullUndo | GUI.py:232-244 | with every list undone, two separate strokes end up in one list |
| Scenarios.RightRightLeft | GUI.py:208-224 | on five slides, right, right, left (each followed by the cooldown) ends on the second slide |
| Decimal.ShowNat | GUI.py:106 | `str(i)` of a natural is a non-empty run of digits without a leading zero |
| Decimal.DigitChar | GUI.py:106 | the digit character of `d` has value `d` |
| Decimal.ShowNatValue | GUI.py:106 | the digits of `str(i)` read back as `i` |
| Decimal.ParseShowNat | GUI.py:121 | `int(str(i)) == i` for naturals |
| Decimal.ParseShowInt | GUI.py:263 | `int(str(i)) == i` for all integers |
| Decimal.ParseInt | GUI.py:121 | `int(s)` succeeds exactly on an optional sign followed by one or more digits; the value is the digits' decimal value, negated after a `-` |
| Decimal.ShowNatInjective | GUI.py:122 | distinct indices give distinct names |
| Text.LowerKeepsLowerCase | GUI.py:117 | a name without upper-case letters is its own lower-case form |
| Text.Find | GUI.py:121 | the leftmost occurrence of the separator, or none anywhere |
| Text.Split | GUI.py:121 | `str.split(sep)`: at least one part, the parts joined by the separator give back the string, and no part contains it |
| Text.SplitCutsLeftmost | GUI.py:121 | the cuts of `str.split` fall at the leftmost occurrences: every piece but the last, followed by the separator, first contains it at its own end |
| Text.LastIndexOf | GUI.py:172 | the last occurrence of a character, or none |
| Text.Root | GUI.py:172 | `os.path.splitext(name)[0]`: a prefix of the name that stops at the last dot, provided something other than a dot precedes it; the name is kept whole only when every dot in it is a leading dot |
| KeySort.FirstUnkeyed | GUI.py:121 | some name's key fails exactly when the key function would raise inside `sorted`, and the name reported is one whose key fails |
| KeySort.Insert | GUI.py:121 | inserting keeps every key defined and adds exactly the one element |
| KeySort.InsertKeepsSorted | GUI.py:121 | insertion into a key-sorted sequence stays key-sorted |
| KeySort.Sort | GUI.py:121 | `sorted(xs, key=key)` is key-ordered and a permutation of its input |
| KeySort.SortedPermutationUnique | GUI.py:121 | with distinct keys there is exactly one key-sorted permutation |
| KeySort.HeadsAgree | GUI.py:121 | two key-sorted permutations with distinct keys start with the same element |
| SlideFiles.PngNames | GUI.py:117 | the listing filter keeps exactly the names ending in `.png` in any letter case, and keeps a listing of PNG names whole |
| SlideFiles.PngNamesConcat | GUI.py:117 | the filter works piecewise, so PNG names keep their listing order and multiplicity |
| SlideFiles.PngNamesSingle | GUI.py:117 | a single name passes exactly when it ends in `.png` in any letter case |
| SlideFiles.RenamePlan | GUI.py:117-126 | a wrong PNG count fails with the expected and the found count, a name without a rename key fails with that name, otherwise every PNG is renamed to `1.png`, `2.png`, .. in increasing key order |
| SlideFiles.SlideOrder | GUI.py:172 | the slide list is the key-sorted permutation of the PNG names, or fails with a name whose stem is not an integer |
| SlideFiles.ExportKeyOfSlideName | GUI.py:121 | the rename key of `slide{i}.png` is `i` |
| SlideFiles.IndexKeyOfIndexName | GUI.py:172 | the read-back key of `{idx}.png` is `idx` |
| SlideFiles.ExportNamesSorted | GUI.py:105-121 | the export names are in strictly increasing key order |
| SlideFiles.IndexNamesSorted | GUI.py:172 | the renamed names are in strictly increasing key order |
| SlideFiles.RenamePlanKeepsSlideOrder | GUI.py:105-126 | whatever order the folder lists the export in, `slide{i}.png` is renamed to `{i}.png` |
| SlideFiles.SlideOrderIsNumeric | GUI.py:172 | whatever order the folder lists `1.png` .. `n.png` in, the slide list holds them in numeric order |
| SlideFiles.SlideListFollowsExport | GUI.py:105-172 | end to end: position k of the slide list is the file slide k + 1 was exported to |
| SlideFiles.RenameTargetsFresh | GUI.py:121-126 | no rename target is the name of a file still to be renamed |
| SlideFiles.TenthSlideStaysTenth | GUI.py:121-122 | with ten slides `slide10.png` becomes `10.png` and `slide2.png` becomes `2.png`: numeric, not text, order |

## Left out

- Camera capture, `cv2` drawing, alpha blending, resizing and window display
  are input and output. The frame arrives as a `Frame` value. The drawn lines
  are modelled as a list of segments, and the fingertip marker as
  `Controller.Pointer`.
- `HandDetector.findHands` and `fingersUp` are a third-party library. Their
  output (hand or none, `cy`, `fingers`, the fingertip) is the frame input.
  Only the first reported hand is used, as in the program.
- The `np.interp` remap of the fingertip is float interpolation with
  truncation. The remapped point is an opaque input.
- The threshold slider and its `int(float(value))` conversion belong to the
  tkinter interface. The threshold is an integer input read on every frame.
- The tkinter window, file dialog and message boxes are interface code.
- python-pptx loading, the `slide_count > 0` check, and the PowerPoint COM
  export are foreign libraries. The slide count is a parameter, and
  `Invariants.ReachableValid` assumes at least one slide.
- Filesystem effects are left out:
  - `os.makedirs`, `os.rename`, `shutil.rmtree` and the uuid folder name;
  - `os.listdir`, whose result is the `listing` input.
  
  Renames are produced as a plan, not performed.
- The error handler at GUI.py:131-136 and its `os.path.exists(None)` call are
  error reporting and cleanup. The model stops at the failure value
  (`SlideFiles.ExportError`).
- The failed camera read and the failed image load (GUI.py:177-186) end the
  loop. They are I/O and not modelled.
- The `q` key quit and the cleanup after the loop are left out.
- `drawMode` and `delayCounter` are never read, so they have no part in the
  state.
- The `print` calls are left out.
- Decimal.ParseInt: accepts an optional sign followed by ASCII digits. It does
  not accept the surrounding whitespace, underscores or non-ASCII digits that
  Python's `int()` also takes. No name this program generates contains them.
- Text.Lower: folds ASCII letters only, where Python folds all of Unicode.
  The `.png` test only depends on ASCII letters.
- KeySort.Sort: does not state stability, because keys are distinct
  wherever the program's own names are sorted. Where keys repeat, the order of
  equal-keyed names is not stated.
- Text.Root: does not model a directory part in the name. Listings hold bare
  file names.
