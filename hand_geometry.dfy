/**
 * Finger counting and the count-to-label mapping shared by the scroll and the
 * keyboard hand controllers. A hand snapshot is the detector's 21 landmarks,
 * indexed the way the hand-landmark model numbers them (0 wrist, 3 thumb IP
 * joint, 4 thumb tip, 8/12/16/20 finger tips, each tip's PIP joint two lower).
 */
module HandGeometry {
  import opened Basics

  type HandSnapshot = s: seq<Point> | |s| == 21 witness seq(21, _ => Point(0.0, 0.0))

  const Wrist: nat := 0
  const ThumbIp: nat := 3
  const ThumbTip: nat := 4
  /** Tips of the index, middle, ring and little finger, in the order they are examined. */
  const TipIds: seq<nat> := [8, 12, 16, 20]

  /** The hand-gesture labels; Unknown is what a count outside 0..5 would give. */
  datatype Gesture = Fist | One | Two | Three | Four | Five | Unknown

  /** The thumb is out when its tip lies left of its IP joint in the mirrored frame. */
  predicate ThumbOut(hand: HandSnapshot)
  {
    hand[ThumbTip].x < hand[ThumbIp].x
  }

  /** A finger is up when its tip lies above (smaller y than) the joint two indices below it. */
  predicate TipUp(hand: HandSnapshot, tip: nat)
    requires 2 <= tip < 21
  {
    hand[tip].y < hand[tip - 2].y
  }

  function Bit(b: bool): (n: nat)
  {
    if b then 1 else 0
  }

  /** The 0/1 list of extended fingers: thumb first, then the fingers of TipIds in order. */
  function FingerFlags(hand: HandSnapshot): (flags: seq<nat>)
  {
    [Bit(ThumbOut(hand))] + seq(|TipIds|, k requires 0 <= k < |TipIds| => Bit(TipUp(hand, TipIds[k])))
  }

  /** Number of occurrences of v in s (a list's count). */
  function Occurrences(s: seq<nat>, v: nat): (c: nat)
    ensures c <= |s|
    ensures c == |s| <==> forall i :: 0 <= i < |s| ==> s[i] == v
    ensures c == 0 <==> forall i :: 0 <= i < |s| ==> s[i] != v
  {
    if s == [] then 0
    else Occurrences(s[..|s| - 1], v) + (if s[|s| - 1] == v then 1 else 0)
  }

  /** The number of extended fingers of a snapshot. */
  function FingerCount(hand: HandSnapshot): (count: nat)
  {
    Occurrences(FingerFlags(hand), 1)
  }

  /**
   * The finger count is the thumb rule plus the four tip rules, each
   * contributing one when it holds, so it lies in 0..5.
   */
  lemma FingerCountIsSum(hand: HandSnapshot)
    ensures FingerCount(hand) == Bit(ThumbOut(hand)) + Bit(TipUp(hand, 8)) + Bit(TipUp(hand, 12))
                                 + Bit(TipUp(hand, 16)) + Bit(TipUp(hand, 20))
    ensures FingerCount(hand) <= 5
  {
    var f := FingerFlags(hand);
    assert f[..5] == f;
    assert f[..5][..4] == f[..4];
    assert f[..4][..3] == f[..3];
    assert f[..3][..2] == f[..2];
    assert f[..2][..1] == f[..1];
    assert f[..1][..0] == [];
    assert Occurrences(f[..1], 1) == Bit(ThumbOut(hand));
    assert Occurrences(f[..2], 1) == Occurrences(f[..1], 1) + Bit(TipUp(hand, 8));
    assert Occurrences(f[..3], 1) == Occurrences(f[..2], 1) + Bit(TipUp(hand, 12));
    assert Occurrences(f[..4], 1) == Occurrences(f[..3], 1) + Bit(TipUp(hand, 16));
    assert Occurrences(f, 1) == Occurrences(f[..4], 1) + Bit(TipUp(hand, 20));
  }

  /**
   * count_fingers: builds the 0/1 list finger by finger and returns how many
   * ones it holds.
   */
  method CountFingers(hand: HandSnapshot) returns (n: nat)
    ensures n == FingerCount(hand)
    ensures n <= 5
  {
    var fingers: seq<nat> := [];
    if hand[ThumbTip].x < hand[ThumbIp].x {
      fingers := fingers + [1];
    } else {
      fingers := fingers + [0];
    }
    var i := 0;
    while i < |TipIds|
      invariant 0 <= i <= |TipIds|
      invariant fingers == FingerFlags(hand)[..i + 1]
    {
      var tip := TipIds[i];
      if hand[tip].y < hand[tip - 2].y {
        fingers := fingers + [1];
      } else {
        fingers := fingers + [0];
      }
      i := i + 1;
    }
    assert fingers == FingerFlags(hand);
    n := Occurrences(fingers, 1);
  }

  /** The count-to-label chain of detect_gesture. */
  function Label(count: nat): (g: Gesture)
    ensures g == Unknown <==> count > 5
  {
    if count == 0 then Fist
    else if count == 1 then One
    else if count == 2 then Two
    else if count == 3 then Three
    else if count == 4 then Four
    else if count == 5 then Five
    else Unknown
  }

  /** How many fingers a label stands for; the inverse of Label on 0..5. */
  function FingersShown(g: Gesture): Option<nat>
  {
    match g
    case Fist => Some(0)
    case One => Some(1)
    case Two => Some(2)
    case Three => Some(3)
    case Four => Some(4)
    case Five => Some(5)
    case Unknown => None
  }

  /** Label is one-to-one on the counts 0..5. */
  lemma LabelRoundTrip(count: nat)
    requires count <= 5
    ensures FingersShown(Label(count)) == Some(count)
  {
  }

  /** Every known label comes from exactly one count in 0..5. */
  lemma FingersShownRoundTrip(g: Gesture)
    requires g != Unknown
    ensures FingersShown(g).Some? && FingersShown(g).value <= 5 && Label(FingersShown(g).value) == g
  {
  }

  /**
   * The label of a snapshot is never Unknown; it is Five exactly when every
   * finger rule holds and Fist exactly when none does.
   */
  lemma OpenAndClosedHand(hand: HandSnapshot)
    ensures Label(FingerCount(hand)) != Unknown
    ensures Label(FingerCount(hand)) == Five <==>
              ThumbOut(hand) && TipUp(hand, 8) && TipUp(hand, 12) && TipUp(hand, 16) && TipUp(hand, 20)
    ensures Label(FingerCount(hand)) == Fist <==>
              !ThumbOut(hand) && !TipUp(hand, 8) && !TipUp(hand, 12) && !TipUp(hand, 16) && !TipUp(hand, 20)
  {
    FingerCountIsSum(hand);
  }
}
