# Webcam gesture controllers — decision logic

This project models the decision layer of three webcam controllers. Each one turns the
landmarks a detector finds in a camera frame into key presses or scroll events:

- **BrowserGestureController** (`scroll.py`). Making a fist enters scroll mode and anchors on
  the wrist. While the fist is held, vertical wrist motion since the previous frame scrolls the
  page: `dy = (y - anchor_y) * 1000`, a scroll of `int(dy * 10)` when `|dy| > 20`, in either
  direction, and then the anchor moves to the current wrist position. Any other gesture, or a
  frame without a hand, leaves scroll mode. The controller also has a sliding five-label
  confirmation window (`confirm_gesture`), which the live frame loop never calls.
- **GestureController** (`gesture_control.py`). The finger count (0..5) becomes a label
  (fist, one … five). A label that differs from the previous one presses enter, up, down, left,
  right or space. A label held over consecutive frames presses only once. A frame without a
  hand forgets the previous label.
- **PoseController** (`pose_control.py`). An ordered chain of body-pose tests picks one action
  per frame. The action fires (w, s, space, a, d or enter) only when at least 0.5 s have passed
  since the last firing and the action is neither neutral nor the last fired action. Nothing
  resets the gate when no body is detected.

Landmark coordinates are `real`s. A hand snapshot is a sequence of 21 points. A pose snapshot is
a record of the seven named landmarks the classifier reads. The wall clock is a `now: real`
parameter. Key presses and scroll amounts are appended to ghost logs (`pressed`, `presses`,
`scrolls`), so "exactly once" and "never" can be stated.

Files: `basics.dfy` (Option, Point, Key, Abs), `hand_geometry.dfy` (finger counting and labels,
which both hand controllers share), `scroll_control.dfy`, `gesture_control.dfy` and
`pose_control.dfy`. Each controller is a class whose fields are the source's state fields. The scroll and
pose controllers carry a `Valid()` invariant that every method keeps; the keyboard hand
controller's single field needs none. Pure specification functions (`Slide`/`Feed`/
`Verdicts`, `React`/`Step`/`Run`, `Fires`/`GateHistory`) carry the multi-frame lemmas.

The model follows the code, not its comments or the obvious intent:
- `both_hands_up` can never be returned, because the single left-hand test comes first.
- Entering scroll mode does not clear the gesture history. Leaving it on a non-fist label
  clears it, and so does every frame without a hand, in or out of scroll mode.
- Scrolling happens in both directions, although a comment says it only scrolls down.
- The keyboard hand controller has no confirmation window. It presses on the first frame that
  shows a new label, not after five equal labels.

## Model

| member | source | states |
|---|---|---|
| Basics.Abs | pose_control.py:58-59 | The result is non-negative and equals the argument or its negation. |
| HandGeometry.Occurrences | scroll.py:51 | The count of a value is at most the length; it equals the length iff every element is that value, and is zero iff none is. |
| HandGeometry.CountFingers | scroll.py:33-51 | The loop collects the thumb flag and then the four tip flags in order; the returned count equals FingerCount and is at most 5. |
| HandGeometry.FingerCountIsSum | gesture_control.py:27-45 | The count is one for `landmark[4].x < landmark[3].x` plus one for each tip 8/12/16/20 whose y is below that of the joint two indices lower; so it lies in 0..5. |
| HandGeometry.Label | scroll.py:63-76 | The count-to-label chain gives Unknown exactly for counts above 5. |
| HandGeometry.LabelRoundTrip | gesture_control.py:60-73 | Label is one-to-one on 0..5: the finger count read back from Label(c) is c. |
| HandGeometry.FingersShownRoundTrip | gesture_control.py:60-73 | Every known label comes from exactly one count in 0..5: Label of the count it stands for gives the label back. |
| HandGeometry.OpenAndClosedHand | scroll.py:59-76 | A snapshot's label is never Unknown. It is five iff every finger rule holds and fist iff none holds. |
| ScrollControl.WindowIsLastN | scroll.py:80-85 | Starting from a history that fits the window, after any sequence of confirm calls the history is exactly the last N labels passed. |
| ScrollControl.LastVerdict | scroll.py:87-92 | The result of the last call in a sequence is the verdict on the window left behind by the whole sequence. |
| ScrollControl.ConfirmedIffLastNAgree | scroll.py:78-92 | From an empty history, a call returns its own label iff at least N labels have been passed and the last N are all equal to it; otherwise it returns None. |
| ScrollControl.VerdictsShape | scroll.py:87-92 | Every call returns None or its own label, and no call confirms before N labels have filled the window. |
| ScrollControl.FiveEqualLabelsConfirmOnFifth | scroll.py:84-90 | With N = 5 and an empty history, five equal labels give None four times and then the label on the fifth call. |
| ScrollControl.DifferentFifthLabelNeverConfirms | scroll.py:84-90 | If the fifth of five labels differs from the first four, the first label is never confirmed; a single label after a reset is not confirmed either. |
| ScrollControl.TruncateTowardZero | scroll.py:115 | `int()` on a number truncates toward zero: the result lies within one of the argument, on the zero side. |
| ScrollControl.ScrollEvents | scroll.py:111-119 | A scroll-mode frame emits at most one scroll. It emits one iff `abs(dy) > 20`, with the sign of `dy`, magnitude at least 200, and within one of `dy * 10` toward zero. |
| ScrollControl.ScrollExample | scroll.py:112-116 | A move from 0.50 to 0.53 scrolls by 300; a further move to 0.531 scrolls nothing. |
| ScrollControl.BrowserGestureController.constructor | scroll.py:20-31 | Starts out of scroll mode, with no anchor, an empty history and nothing scrolled. |
| ScrollControl.BrowserGestureController.DetectGesture | scroll.py:59-76 | The label is Label(FingerCount(hand)). It is never "unknown", and it is fist iff no finger is extended. |
| ScrollControl.BrowserGestureController.ConfirmGesture | scroll.py:78-92 | The history becomes the old history plus the label, with the oldest entry dropped on overflow. It stays within N and ends with the label. The result is the label iff the window is full and every entry equals it, otherwise None. |
| ScrollControl.BrowserGestureController.ExecuteBrowserAction | scroll.py:94-127 | Fist outside scroll mode: enter it, anchor on the wrist (HandCenter, `landmark[0]`, scroll.py:53-57), scroll nothing, keep the history. Fist in scroll mode: append ScrollEvents(anchor, wrist) and re-anchor. Other label: leave scroll mode, clearing anchor and history, or change nothing if not in scroll mode. Keeps `is_fist` iff anchor set. |
| ScrollControl.BrowserGestureController.NoHandDetected | scroll.py:234-240 | Leaves scroll mode, clears the anchor and the history, scrolls nothing, keeps the invariant. |
| ScrollControl.BrowserGestureController.ProcessFrame | scroll.py:202-240 | With no hand, the no-hand reset happens. With a hand, scroll mode is on afterwards iff the hand shows no finger, and the anchor is then that hand's wrist. The history is cleared when the frame leaves scroll mode and kept otherwise. A scroll can happen only on a frame that stays in scroll mode, and it is that frame's ScrollEvents. |
| GestureControl.KeyFor | gesture_control.py:83-90 | The table maps one/two/three/four/five/fist to up/down/left/right/space/enter; only Unknown has no key. |
| GestureControl.React | gesture_control.py:75-93 | A label equal to the previous one changes nothing and presses nothing. Any other label becomes the previous label, even without a key, and presses at most one key: its own, present iff the label is not Unknown. |
| GestureControl.HoldingPressesAtMostOnce | gesture_control.py:77-80 | Holding one label for n frames presses at most one key. It presses its own key exactly when n > 0 and the label differs from the previous one, and leaves that label as the previous one. |
| GestureControl.NoHandRearms | gesture_control.py:147-148 | After a frame without a hand, showing the label held before presses its key again. |
| GestureControl.OpenPalmAfterNoHand | gesture_control.py:122-148 | A frame without a hand followed by one or five open-palm frames presses space exactly once. |
| GestureControl.GestureController.constructor | gesture_control.py:21-22 | Starts with no previous label and nothing pressed. |
| GestureControl.GestureController.DetectGesture | gesture_control.py:47-73 | The label depends only on the finger count: it is Label(FingerCount(hand)). It is never "unknown", so it always has a key. |
| GestureControl.GestureController.ExecuteKeyboardAction | gesture_control.py:75-94 | A repeated label leaves state and presses unchanged. Otherwise the previous label becomes the label, and its key, if any, is appended exactly once. This equals React. |
| GestureControl.GestureController.ProcessFrame | gesture_control.py:122-148 | With no hand, the previous label is reset and nothing is pressed. With a hand, the new state and presses are Step on the hand's label. |
| PoseControl.DetectPoseAction | pose_control.py:25-63 | The action is that of the first test that holds, in source order, and neutral when none holds, each as an iff. "both_hands_up" is never returned. |
| PoseControl.LeansExclusive | pose_control.py:50-55 | The lean-left and lean-right tests cannot both hold. |
| PoseControl.LeftHandUpWins | pose_control.py:37-38 | A raised left wrist (more than 0.1 above the left shoulder) gives "left_hand_up" whatever the other landmarks are. |
| PoseControl.KeyFor | pose_control.py:80-87 | The table maps left_hand_up/right_hand_up/both_hands_up/lean_left/lean_right/arms_crossed to w/s/space/a/d/enter; only neutral has no key. |
| PoseControl.KeyForInjective | pose_control.py:80-87 | Two actions other than neutral share a key iff they are the same action. |
| PoseControl.FiringKeepsGateHistory | pose_control.py:69-77 | A firing preserves the gate history. No press comes within 0.5 s of construction, any two presses are at least 0.5 s apart, consecutive presses use different keys, and the last press is the last fired action at the last action time. |
| PoseControl.PoseController.constructor | pose_control.py:20-23 | Starts with no previous action and the last action time set to the construction time, so the cooldown runs from construction. |
| PoseControl.PoseController.ExecuteKeyboardAction | pose_control.py:65-91 | Within 0.5 s of the last action time, or for a repeated or neutral action, nothing changes. Otherwise the previous action and the last action time become the action and `now`, and its key is pressed exactly once. The gate history is kept. |
| PoseControl.PoseController.ProcessFrame | pose_control.py:119-142 | A frame without a body changes nothing (there is no reset). A frame with one runs the gate on the detected action. |

## Left out

- Camera capture, image flipping and colour conversion, overlay text, windows and the quit key
  are I/O and rendering. The choice of overlay text at scroll.py:215-220 is rendering too.
- Detector construction, `process` and `draw_landmarks` are calls into the landmark library.
  Snapshots are inputs. The pose landmark indices come from that library, so the pose snapshot
  uses named fields instead.
- Key and scroll injection are modelled only as appended entries of the ghost logs. Console
  logging is dropped.
- Reading the wall clock: the time is a `now` parameter. The pose constructor takes the time it
  would have read.
- The thumb–index distance at gesture_control.py:57 is floating-point and its value is never used.
- The commented-out browser actions and their cooldown (scroll.py:129-171, 179-183) are not live
  code. The fields `prev_gesture`, `last_action_time` and `action_cooldown` of the scroll
  controller, and `current_time` at scroll.py:96, are never read by live code.
- The outer `while True` loops, their termination on a failed frame read and the program entry
  points are orchestration. The per-frame bodies are modelled as `ProcessFrame`.
- The loop over detected hands: the detector tracks at most one hand, so a frame holds an
  optional single snapshot.
- Floating-point rounding: coordinates are exact reals. `int()` is modelled as truncation toward
  zero.
- The scroll controller's window size, scale factor, threshold and sensitivity are module
  constants with the source's values (5, 1000, 20, 10), because the source never changes them.
