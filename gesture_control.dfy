/**
 * The keyboard hand controller: each frame's finger-count label presses one
 * key, edge-triggered, so a label held over consecutive frames presses only
 * once; a frame without a hand forgets the previous label.
 */
module GestureControl {
  import opened Basics
  import opened HandGeometry

  /** The label-to-key table; Unknown has no entry. */
  function KeyFor(g: Gesture): (k: Option<Key>)
    ensures k.None? <==> g == Unknown
  {
    match g
    case One => Some(Up)
    case Two => Some(Down)
    case Three => Some(Left)
    case Four => Some(Right)
    case Five => Some(Space)
    case Fist => Some(Enter)
    case Unknown => None
  }

  /** The keys pressed when a label is acted on: its table entry, if any. */
  function PressFor(g: Gesture): (keys: seq<Key>)
  {
    match KeyFor(g)
    case Some(k) => [k]
    case None => []
  }

  /**
   * execute_keyboard_action as a transition on the previous label: a repeated
   * label does nothing; a new one becomes the previous label, mapped or not,
   * and presses its key when it has one.
   */
  function React(prev: Option<Gesture>, g: Gesture): (r: (Option<Gesture>, seq<Key>))
    ensures |r.1| <= 1
    ensures prev == Some(g) ==> r == (prev, [])
    ensures prev != Some(g) ==> r.0 == Some(g) && (r.1 != [] <==> g != Unknown)
    ensures r.1 != [] ==> Some(r.1[0]) == KeyFor(g)
  {
    if prev == Some(g) then (prev, []) else (Some(g), PressFor(g))
  }

  /** One frame of the loop: a frame without a hand (None) clears the previous label. */
  function Step(prev: Option<Gesture>, frame: Option<Gesture>): (r: (Option<Gesture>, seq<Key>))
  {
    match frame
    case None => (None, [])
    case Some(g) => React(prev, g)
  }

  /** The previous label after a run of frames and every key pressed during it. */
  function Run(prev: Option<Gesture>, frames: seq<Option<Gesture>>): (r: (Option<Gesture>, seq<Key>))
    decreases |frames|
  {
    if frames == [] then (prev, [])
    else
      var (next, keys) := Step(prev, frames[0]);
      var (last, rest) := Run(next, frames[1..]);
      (last, keys + rest)
  }

  /** n consecutive frames showing the same label. */
  function Holding(g: Gesture, n: nat): (frames: seq<Option<Gesture>>)
  {
    seq(n, _ => Some(g))
  }

  /**
   * Holding one label over any number of frames presses at most one key: its
   * own, and only when the label differs from the previous one.
   */
  lemma {:induction false} HoldingPressesAtMostOnce(prev: Option<Gesture>, g: Gesture, n: nat)
    ensures Run(prev, Holding(g, n)).1 == if n > 0 && prev != Some(g) then PressFor(g) else []
    ensures |Run(prev, Holding(g, n)).1| <= 1
    ensures n > 0 ==> Run(prev, Holding(g, n)).0 == Some(g)
    decreases n
  {
    if n > 0 {
      var frames := Holding(g, n);
      assert frames[0] == Some(g);
      assert frames[1..] == Holding(g, n - 1);
      HoldingPressesAtMostOnce(Some(g), g, n - 1);
    }
  }

  /** After a frame without a hand, showing the same label again presses its key again. */
  lemma NoHandRearms(g: Gesture, n: nat)
    requires n > 0
    ensures Run(Some(g), [None] + Holding(g, n)).1 == PressFor(g)
  {
    var frames := [None] + Holding(g, n);
    assert frames[1..] == Holding(g, n);
    HoldingPressesAtMostOnce(None, g, n);
  }

  /** A missing hand followed by five open-palm frames presses space exactly once, on the first palm. */
  lemma OpenPalmAfterNoHand(prev: Option<Gesture>)
    ensures Run(prev, [None] + Holding(Five, 1)).1 == [Space]
    ensures Run(prev, [None] + Holding(Five, 5)).1 == [Space]
  {
    var frames := [None] + Holding(Five, 5);
    assert frames[1..] == Holding(Five, 5);
    HoldingPressesAtMostOnce(None, Five, 5);
    var one := [None] + Holding(Five, 1);
    assert one[1..] == Holding(Five, 1);
    HoldingPressesAtMostOnce(None, Five, 1);
  }

  class GestureController {
    var prevGesture: Option<Gesture>
    /** Every key handed to the input injector, in order. */
    ghost var pressed: seq<Key>

    constructor ()
      ensures prevGesture == None && pressed == []
    {
      prevGesture := None;
      pressed := [];
    }

    /** detect_gesture: the label of the snapshot's finger count; never Unknown. */
    method DetectGesture(hand: HandSnapshot) returns (g: Gesture)
      ensures g == Label(FingerCount(hand))
      ensures g != Unknown
      ensures KeyFor(g).Some?
    {
      var count := CountFingers(hand);
      g := Label(count);
    }

    /** execute_keyboard_action: act on a label unless it repeats the previous one. */
    method ExecuteKeyboardAction(gesture: Gesture)
      modifies this
      ensures old(prevGesture) == Some(gesture) ==> prevGesture == old(prevGesture) && pressed == old(pressed)
      ensures old(prevGesture) != Some(gesture) ==>
                prevGesture == Some(gesture) && pressed == old(pressed) + PressFor(gesture)
      ensures (prevGesture, pressed) ==
                (React(old(prevGesture), gesture).0, old(pressed) + React(old(prevGesture), gesture).1)
    {
      if Some(gesture) == prevGesture {
        assert pressed + [] == pressed;
        return;
      }
      prevGesture := Some(gesture);
      match KeyFor(gesture)
      case Some(k) =>
        pressed := pressed + [k];
      case None =>
    }

    /** One pass of the frame loop after detection; a frame without a hand forgets the previous label. */
    method ProcessFrame(frame: Option<HandSnapshot>)
      modifies this
      ensures frame.None? ==> prevGesture == None && pressed == old(pressed)
      ensures frame.Some? ==>
                var step := Step(old(prevGesture), Some(Label(FingerCount(frame.value))));
                prevGesture == step.0 && pressed == old(pressed) + step.1
    {
      match frame
      case Some(hand) =>
        var gesture := DetectGesture(hand);
        ExecuteKeyboardAction(gesture);
      case None =>
        prevGesture := None;
    }
  }
}
