/**
 * The browser scroll controller: a fist enters scroll mode, anchoring on the
 * wrist; while the fist is held, vertical wrist motion since the previous
 * frame scrolls the page; any other gesture or a frame without a hand leaves
 * scroll mode. It also carries a sliding confirmation window over gesture
 * labels, which the live frame loop never consults.
 */
module ScrollControl {
  import opened Basics
  import opened HandGeometry

  /** Window size of the confirmation mechanism (gesture_confirm_count). */
  const GestureConfirmCount: nat := 5
  /** Factor that turns a normalised vertical displacement into a motion value. */
  const ScaleFactor: real := 1000.0
  /** A motion value must exceed this in magnitude to scroll. */
  const MotionThreshold: real := 20.0
  /** scroll_sensitivity: factor from motion value to scroll amount. */
  const ScrollSensitivity: real := 10.0

  // ---------------------------------------------------------------------------
  // Confirmation window

  /** The history after one append, dropping the oldest entry once the window overflows. */
  function Slide(history: seq<Gesture>, current: Gesture, n: nat): (window: seq<Gesture>)
  {
    var appended := history + [current];
    if |appended| > n then appended[1..] else appended
  }

  predicate AllAre(window: seq<Gesture>, g: Gesture)
  {
    forall i :: 0 <= i < |window| ==> window[i] == g
  }

  /** What confirm_gesture returns once the window has been updated. */
  function Verdict(window: seq<Gesture>, current: Gesture, n: nat): Option<Gesture>
  {
    if |window| >= n && AllAre(window, current) then Some(current) else None
  }

  /** The history after confirming each of inputs in turn. */
  function Feed(history: seq<Gesture>, inputs: seq<Gesture>, n: nat): (window: seq<Gesture>)
    decreases |inputs|
  {
    if inputs == [] then history
    else Feed(Slide(history, inputs[0], n), inputs[1..], n)
  }

  /** The result of each of those confirmations, in order. */
  function Verdicts(history: seq<Gesture>, inputs: seq<Gesture>, n: nat): (vs: seq<Option<Gesture>>)
    decreases |inputs|
    ensures |vs| == |inputs|
  {
    if inputs == [] then []
    else
      var next := Slide(history, inputs[0], n);
      [Verdict(next, inputs[0], n)] + Verdicts(next, inputs[1..], n)
  }

  /** The last n elements of s (all of s when it is shorter). */
  function LastN(s: seq<Gesture>, n: nat): (w: seq<Gesture>)
    ensures |w| == if |s| < n then |s| else n
    ensures forall i :: 0 <= i < |w| ==> w[i] == s[|s| - |w| + i]
  {
    if |s| <= n then s else s[|s| - n..]
  }

  /** Dropping the first element of a sequence longer than n keeps its last n elements. */
  lemma LastNDropFirst(s: seq<Gesture>, n: nat)
    requires |s| > n
    ensures LastN(s[1..], n) == LastN(s, n)
  {
    assert s[1..][|s| - 1 - n..] == s[|s| - n..];
  }

  /** Starting from a history that fits the window, the history is always the last n labels seen. */
  lemma {:induction false} WindowIsLastN(history: seq<Gesture>, inputs: seq<Gesture>, n: nat)
    requires |history| <= n
    ensures Feed(history, inputs, n) == LastN(history + inputs, n)
    decreases |inputs|
  {
    if inputs == [] {
      assert history + inputs == history;
    } else {
      var appended := history + [inputs[0]];
      var next := Slide(history, inputs[0], n);
      var all := history + inputs;
      WindowIsLastN(next, inputs[1..], n);
      assert appended + inputs[1..] == all;
      if |appended| > n {
        assert next == appended[1..];
        assert next + inputs[1..] == all[1..];
        LastNDropFirst(all, n);
      } else {
        assert next == appended;
      }
    }
  }

  /** The verdict of the last confirmation is taken on the window Feed leaves behind. */
  lemma {:induction false} LastVerdict(history: seq<Gesture>, inputs: seq<Gesture>, n: nat)
    requires inputs != []
    ensures Verdicts(history, inputs, n)[|inputs| - 1] ==
            Verdict(Feed(history, inputs, n), inputs[|inputs| - 1], n)
    decreases |inputs|
  {
    if |inputs| > 1 {
      LastVerdict(Slide(history, inputs[0], n), inputs[1..], n);
    }
  }

  /**
   * Starting from an empty history, a call confirms its label exactly when at
   * least n labels have been seen and the last n of them all equal it.
   */
  lemma ConfirmedIffLastNAgree(inputs: seq<Gesture>, n: nat)
    requires n >= 1 && inputs != []
    ensures Verdicts([], inputs, n)[|inputs| - 1] == Some(inputs[|inputs| - 1]) <==>
            |inputs| >= n && forall i :: |inputs| - n <= i < |inputs| ==> inputs[i] == inputs[|inputs| - 1]
  {
    LastVerdict([], inputs, n);
    WindowIsLastN([], inputs, n);
    assert [] + inputs == inputs;
    var w := LastN(inputs, n);
    if |inputs| >= n && forall i :: |inputs| - n <= i < |inputs| ==> inputs[i] == inputs[|inputs| - 1] {
      assert AllAre(w, inputs[|inputs| - 1]);
    }
    if Verdicts([], inputs, n)[|inputs| - 1] == Some(inputs[|inputs| - 1]) {
      forall i | |inputs| - n <= i < |inputs|
        ensures inputs[i] == inputs[|inputs| - 1]
      {
        assert w[i - (|inputs| - n)] == inputs[i];
      }
    }
  }

  /** Each call answers None or its own label, and never confirms before n labels have been seen. */
  lemma {:induction false} VerdictsShape(history: seq<Gesture>, inputs: seq<Gesture>, n: nat)
    ensures forall i :: 0 <= i < |inputs| ==>
              Verdicts(history, inputs, n)[i] in {None, Some(inputs[i])}
    ensures forall i :: 0 <= i < |inputs| && |history| + i + 1 < n ==> Verdicts(history, inputs, n)[i] == None
    decreases |inputs|
  {
    if inputs != [] {
      var next := Slide(history, inputs[0], n);
      VerdictsShape(next, inputs[1..], n);
      var vs := Verdicts(history, inputs, n);
      forall i | 0 <= i < |inputs|
        ensures vs[i] in {None, Some(inputs[i])}
        ensures |history| + i + 1 < n ==> vs[i] == None
      {
        if i > 0 {
          assert vs[i] == Verdicts(next, inputs[1..], n)[i - 1];
          assert |next| <= |history| + 1;
        }
      }
    }
  }

  /** With a window of five and an empty history, five equal labels confirm on the fifth call and not before. */
  lemma FiveEqualLabelsConfirmOnFifth(a: Gesture)
    ensures Verdicts([], [a, a, a, a, a], GestureConfirmCount) == [None, None, None, None, Some(a)]
  {
    var inputs := [a, a, a, a, a];
    var vs := Verdicts([], inputs, GestureConfirmCount);
    VerdictsShape([], inputs, GestureConfirmCount);
    ConfirmedIffLastNAgree(inputs, GestureConfirmCount);
    assert vs[0] == None && vs[1] == None && vs[2] == None && vs[3] == None;
  }

  /** If the fifth label differs, the first label is never confirmed; a single label after a reset is not either. */
  lemma DifferentFifthLabelNeverConfirms(a: Gesture, b: Gesture)
    requires a != b
    ensures Some(a) !in Verdicts([], [a, a, a, a, b], GestureConfirmCount)
    ensures Verdicts([], [a], GestureConfirmCount) == [None]
  {
    var inputs := [a, a, a, a, b];
    VerdictsShape([], inputs, GestureConfirmCount);
    VerdictsShape([], [a], GestureConfirmCount);
    var vs := Verdicts([], inputs, GestureConfirmCount);
    assert vs[0] == None && vs[1] == None && vs[2] == None && vs[3] == None;
    assert vs[4] != Some(a);
  }

  // ---------------------------------------------------------------------------
  // Scroll arithmetic

  /** Python's int() on a float: truncation toward zero. */
  function TruncateTowardZero(r: real): (i: int)
    ensures r >= 0.0 ==> i as real <= r < i as real + 1.0
    ensures r < 0.0 ==> i as real - 1.0 < r <= i as real
  {
    if r >= 0.0 then r.Floor else -((-r).Floor)
  }

  /** The motion value between the anchor and the current wrist position. */
  function ScrollDelta(anchor: Point, current: Point): (dy: real)
  {
    (current.y - anchor.y) * ScaleFactor
  }

  /**
   * The scroll events one scroll-mode frame emits: one event when the motion
   * exceeds the threshold, in either direction, with the motion's sign and a
   * magnitude of at least threshold times sensitivity; none otherwise.
   */
  function ScrollEvents(anchor: Point, current: Point): (events: seq<int>)
    ensures |events| <= 1
    ensures |events| == 1 <==> Abs(ScrollDelta(anchor, current)) > MotionThreshold
    ensures |events| == 1 && ScrollDelta(anchor, current) > 0.0 ==> events[0] >= 200
    ensures |events| == 1 && ScrollDelta(anchor, current) < 0.0 ==> events[0] <= -200
    ensures |events| == 1 ==>
              Abs(events[0] as real) <= Abs(ScrollDelta(anchor, current) * ScrollSensitivity)
                < Abs(events[0] as real) + 1.0
  {
    var dy := ScrollDelta(anchor, current);
    if Abs(dy) > MotionThreshold then [TruncateTowardZero(dy * ScrollSensitivity)] else []
  }

  /** Anchor at 0.50 then 0.53 scrolls by 300; a further move to 0.531 scrolls nothing. */
  lemma ScrollExample(x: real)
    ensures ScrollEvents(Point(x, 0.50), Point(x, 0.53)) == [300]
    ensures ScrollEvents(Point(x, 0.53), Point(x, 0.531)) == []
  {
    assert ScrollDelta(Point(x, 0.50), Point(x, 0.53)) == 30.0;
    assert TruncateTowardZero(300.0) == 300;
  }

  // ---------------------------------------------------------------------------
  // The controller

  /** get_hand_center: the wrist landmark stands for the hand's position. */
  function HandCenter(hand: HandSnapshot): (center: Point)
  {
    hand[Wrist]
  }

  class BrowserGestureController {
    var isFist: bool
    var prevHandPosition: Option<Point>
    var gestureHistory: seq<Gesture>
    /** Every scroll amount handed to the input injector, in order. */
    ghost var scrolls: seq<int>

    /** Scroll mode has an anchor exactly when it is on; the history fits the window. */
    ghost predicate Valid()
      reads this
    {
      (isFist <==> prevHandPosition.Some?) && |gestureHistory| <= GestureConfirmCount
    }

    constructor ()
      ensures Valid()
      ensures !isFist && prevHandPosition == None && gestureHistory == [] && scrolls == []
    {
      isFist := false;
      prevHandPosition := None;
      gestureHistory := [];
      scrolls := [];
    }

    /** detect_gesture: the label of the snapshot's finger count; never Unknown. */
    method DetectGesture(hand: HandSnapshot) returns (g: Gesture)
      ensures g == Label(FingerCount(hand))
      ensures g != Unknown
      ensures g == Fist <==> FingerCount(hand) == 0
    {
      var count := CountFingers(hand);
      g := Label(count);
    }

    /** confirm_gesture: slide the window and confirm when it is full of the current label. */
    method ConfirmGesture(current: Gesture) returns (confirmed: Option<Gesture>)
      requires Valid()
      modifies this`gestureHistory
      ensures Valid()
      ensures gestureHistory == Slide(old(gestureHistory), current, GestureConfirmCount)
      ensures |gestureHistory| > 0 && gestureHistory[|gestureHistory| - 1] == current
      ensures confirmed == Verdict(gestureHistory, current, GestureConfirmCount)
      ensures confirmed == Some(current) <==>
                |gestureHistory| == GestureConfirmCount && AllAre(gestureHistory, current)
      ensures confirmed.None? || confirmed == Some(current)
    {
      gestureHistory := gestureHistory + [current];
      if |gestureHistory| > GestureConfirmCount {
        gestureHistory := gestureHistory[1..];
      }
      confirmed := None;
      if |gestureHistory| >= GestureConfirmCount {
        if forall i :: 0 <= i < |gestureHistory| ==> gestureHistory[i] == current {
          confirmed := Some(current);
        }
      }
    }

    /**
     * execute_browser_action, live part: a fist enters scroll mode or scrolls
     * by the wrist's motion and re-anchors; any other label leaves scroll mode.
     */
    method ExecuteBrowserAction(gesture: Gesture, hand: HandSnapshot)
      requires Valid()
      modifies this
      ensures Valid()
      // entering scroll mode: anchor on the wrist, nothing scrolled, history kept
      ensures gesture == Fist && !old(isFist) ==>
                isFist && prevHandPosition == Some(HandCenter(hand))
                && gestureHistory == old(gestureHistory) && scrolls == old(scrolls)
      // in scroll mode: scroll by the motion since the anchor, then re-anchor
      ensures gesture == Fist && old(isFist) ==>
                isFist && prevHandPosition == Some(HandCenter(hand))
                && gestureHistory == old(gestureHistory)
                && scrolls == old(scrolls) + ScrollEvents(old(prevHandPosition).value, HandCenter(hand))
      // leaving scroll mode clears anchor and history; outside it nothing changes
      ensures gesture != Fist ==>
                !isFist && prevHandPosition == None && scrolls == old(scrolls)
                && gestureHistory == (if old(isFist) then [] else old(gestureHistory))
    {
      var center := HandCenter(hand);
      if gesture == Fist {
        if !isFist {
          isFist := true;
          prevHandPosition := Some(center);
        } else {
          match prevHandPosition
          case Some(anchor) =>
            var dy := (center.y - anchor.y) * ScaleFactor;
            if Abs(dy) > MotionThreshold {
              var amount := TruncateTowardZero(dy * ScrollSensitivity);
              scrolls := scrolls + [amount];
            }
            prevHandPosition := Some(center);
          case None =>
        }
      } else {
        if isFist {
          isFist := false;
          prevHandPosition := None;
          gestureHistory := [];
        }
      }
    }

    /** The frame loop's no-hand branch: leave scroll mode and clear the history. */
    method NoHandDetected()
      requires Valid()
      modifies this
      ensures Valid()
      ensures !isFist && prevHandPosition == None && gestureHistory == [] && scrolls == old(scrolls)
    {
      if isFist {
        isFist := false;
        prevHandPosition := None;
      }
      gestureHistory := [];
    }

    /**
     * One pass of the frame loop after detection: classify and act on the
     * hand when there is one, otherwise reset.
     */
    method ProcessFrame(frame: Option<HandSnapshot>)
      requires Valid()
      modifies this
      ensures Valid()
      ensures frame.None? ==>
                !isFist && prevHandPosition == None && gestureHistory == [] && scrolls == old(scrolls)
      ensures frame.Some? ==> (isFist <==> FingerCount(frame.value) == 0)
      ensures frame.Some? ==> gestureHistory == (if old(isFist) && !isFist then [] else old(gestureHistory))
      ensures frame.Some? && isFist ==> prevHandPosition == Some(HandCenter(frame.value))
      ensures frame.Some? && !(old(isFist) && isFist) ==> scrolls == old(scrolls)
      ensures frame.Some? && old(isFist) && isFist ==>
                scrolls == old(scrolls) + ScrollEvents(old(prevHandPosition).value, HandCenter(frame.value))
    {
      match frame
      case Some(hand) =>
        var gesture := DetectGesture(hand);
        ExecuteBrowserAction(gesture, hand);
      case None =>
        NoHandDetected();
    }
  }
}
