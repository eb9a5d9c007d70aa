/**
 * The body-pose keyboard controller: an ordered chain of pose predicates
 * picks one action per frame, and a cooldown plus "same as the last fired
 * action" gate decides whether its key is pressed. Nothing resets the gate
 * when no body is detected.
 */
module PoseControl {
  import opened Basics

  /** The seven body landmarks the classifier reads (the elbows are read but unused). */
  datatype PoseSnapshot = PoseSnapshot(
    leftShoulder: Point, rightShoulder: Point,
    leftElbow: Point, rightElbow: Point,
    leftWrist: Point, rightWrist: Point,
    nose: Point)

  datatype Action = LeftHandUp | RightHandUp | BothHandsUp | LeanLeft | LeanRight | ArmsCrossed | Neutral

  /** A key handed to the input injector and the time it was pressed. */
  datatype Press = Press(key: Key, time: real)

  /** How far a wrist must rise above its shoulder to count as raised. */
  const HandUpMargin: real := 0.1
  /** How far one shoulder must sit above the other to count as leaning. */
  const LeanMargin: real := 0.05
  /** How close each wrist must be, horizontally, to the opposite shoulder for crossed arms. */
  const CrossReach: real := 0.15
  /** action_cooldown: minimum time between the previous firing and the next one. */
  const ActionCooldown: real := 0.5

  predicate LeftHandRaised(p: PoseSnapshot)
  {
    p.leftWrist.y < p.leftShoulder.y - HandUpMargin
  }

  predicate RightHandRaised(p: PoseSnapshot)
  {
    p.rightWrist.y < p.rightShoulder.y - HandUpMargin
  }

  predicate BothHandsRaised(p: PoseSnapshot)
  {
    LeftHandRaised(p) && RightHandRaised(p)
  }

  predicate LeaningLeft(p: PoseSnapshot)
  {
    p.leftShoulder.y < p.rightShoulder.y - LeanMargin
  }

  predicate LeaningRight(p: PoseSnapshot)
  {
    p.rightShoulder.y < p.leftShoulder.y - LeanMargin
  }

  predicate ArmsAcrossChest(p: PoseSnapshot)
  {
    Abs(p.leftWrist.x - p.rightShoulder.x) < CrossReach
    && Abs(p.rightWrist.x - p.leftShoulder.x) < CrossReach
    && p.leftWrist.y > p.nose.y && p.rightWrist.y > p.nose.y
  }

  /**
   * detect_pose_action: the action of the first predicate that holds, in the
   * order left hand, right hand, both hands, lean left, lean right, crossed
   * arms; Neutral when none holds. Both hands up is shadowed by the single
   * left-hand test and is never returned.
   */
  function DetectPoseAction(p: PoseSnapshot): (a: Action)
    ensures a == LeftHandUp <==> LeftHandRaised(p)
    ensures a == RightHandUp <==> !LeftHandRaised(p) && RightHandRaised(p)
    ensures a != BothHandsUp
    ensures a == LeanLeft <==> !LeftHandRaised(p) && !RightHandRaised(p) && LeaningLeft(p)
    ensures a == LeanRight <==>
              !LeftHandRaised(p) && !RightHandRaised(p) && !LeaningLeft(p) && LeaningRight(p)
    ensures a == ArmsCrossed <==>
              !LeftHandRaised(p) && !RightHandRaised(p) && !LeaningLeft(p) && !LeaningRight(p)
              && ArmsAcrossChest(p)
    ensures a == Neutral <==>
              !LeftHandRaised(p) && !RightHandRaised(p) && !LeaningLeft(p) && !LeaningRight(p)
              && !ArmsAcrossChest(p)
  {
    if LeftHandRaised(p) then LeftHandUp
    else if RightHandRaised(p) then RightHandUp
    else if BothHandsRaised(p) then BothHandsUp
    else if LeaningLeft(p) then LeanLeft
    else if LeaningRight(p) then LeanRight
    else if ArmsAcrossChest(p) then ArmsCrossed
    else Neutral
  }

  /** The two lean tests exclude each other, so their order does not matter. */
  lemma LeansExclusive(p: PoseSnapshot)
    ensures !(LeaningLeft(p) && LeaningRight(p))
  {
  }

  /** A raised left hand decides the action whatever the other landmarks are. */
  lemma LeftHandUpWins(p: PoseSnapshot, q: PoseSnapshot)
    requires p.leftWrist == q.leftWrist && p.leftShoulder == q.leftShoulder
    requires LeftHandRaised(p)
    ensures DetectPoseAction(p) == LeftHandUp && DetectPoseAction(q) == LeftHandUp
  {
  }

  /** The action-to-key table; Neutral has no entry. */
  function KeyFor(a: Action): (k: Option<Key>)
    ensures k.None? <==> a == Neutral
  {
    match a
    case LeftHandUp => Some(W)
    case RightHandUp => Some(S)
    case BothHandsUp => Some(Space)
    case LeanLeft => Some(A)
    case LeanRight => Some(D)
    case ArmsCrossed => Some(Enter)
    case Neutral => None
  }

  /** Different actions press different keys. */
  lemma KeyForInjective(a: Action, b: Action)
    requires a != Neutral
    ensures KeyFor(a) == KeyFor(b) <==> a == b
  {
  }

  /** Whether the gate lets an action through, given the last fired action and its time. */
  predicate Fires(prevAction: Option<Action>, lastActionTime: real, action: Action, now: real)
  {
    now - lastActionTime >= ActionCooldown && prevAction != Some(action) && action != Neutral
  }

  /**
   * What the gate guarantees about the presses it has made since the
   * controller was created: none within the cooldown of construction, any two
   * at least the cooldown apart, consecutive ones on different keys, and the
   * last one is the last fired action at the last action time.
   */
  ghost predicate GateHistory(presses: seq<Press>, createdAt: real, prevAction: Option<Action>, lastActionTime: real)
  {
    createdAt <= lastActionTime
    && (forall i :: 0 <= i < |presses| ==>
          createdAt + ActionCooldown <= presses[i].time <= lastActionTime)
    && (forall i, j :: 0 <= i < j < |presses| ==> presses[i].time + ActionCooldown <= presses[j].time)
    && (forall i :: 0 < i < |presses| ==> presses[i - 1].key != presses[i].key)
    && (|presses| > 0 ==>
          prevAction.Some? && KeyFor(prevAction.value) == Some(presses[|presses| - 1].key)
          && presses[|presses| - 1].time == lastActionTime)
  }

  /** A firing keeps the gate's guarantees: the new press is spaced, late enough and on a new key. */
  lemma FiringKeepsGateHistory(presses: seq<Press>, createdAt: real, prevAction: Option<Action>,
                               lastActionTime: real, action: Action, now: real)
    requires GateHistory(presses, createdAt, prevAction, lastActionTime)
    requires Fires(prevAction, lastActionTime, action, now)
    ensures GateHistory(presses + [Press(KeyFor(action).value, now)], createdAt, Some(action), now)
  {
    var next := presses + [Press(KeyFor(action).value, now)];
    if |presses| > 0 {
      KeyForInjective(prevAction.value, action);
      assert next[|presses| - 1].key != next[|presses|].key;
    }
    forall i, j | 0 <= i < j < |next|
      ensures next[i].time + ActionCooldown <= next[j].time
    {
      if j < |presses| {
        assert next[i] == presses[i] && next[j] == presses[j];
      } else {
        assert next[i] == presses[i];
      }
    }
  }

  class PoseController {
    var prevAction: Option<Action>
    var lastActionTime: real
    /** The time the controller was constructed. */
    ghost var createdAt: real
    /** Every key handed to the input injector, with its time, in order. */
    ghost var presses: seq<Press>

    ghost predicate Valid()
      reads this
    {
      GateHistory(presses, createdAt, prevAction, lastActionTime)
    }

    /** The constructor reads the clock once: now is that reading. */
    constructor (now: real)
      ensures Valid()
      ensures prevAction == None && lastActionTime == now && createdAt == now && presses == []
    {
      prevAction := None;
      lastActionTime := now;
      createdAt := now;
      presses := [];
    }

    /**
     * execute_keyboard_action at clock reading now: within the cooldown, or on
     * a repeated or neutral action, nothing happens; otherwise the action and
     * the time are recorded and its key is pressed once.
     */
    method ExecuteKeyboardAction(action: Action, now: real)
      requires Valid()
      modifies this
      ensures Valid() && createdAt == old(createdAt)
      ensures now - old(lastActionTime) < ActionCooldown ==>
                prevAction == old(prevAction) && lastActionTime == old(lastActionTime) && presses == old(presses)
      ensures old(prevAction) == Some(action) || action == Neutral ==>
                prevAction == old(prevAction) && lastActionTime == old(lastActionTime) && presses == old(presses)
      ensures Fires(old(prevAction), old(lastActionTime), action, now) ==>
                prevAction == Some(action) && lastActionTime == now
                && presses == old(presses) + [Press(KeyFor(action).value, now)]
    {
      if now - lastActionTime < ActionCooldown {
        return;
      }
      if Some(action) == prevAction || action == Neutral {
        return;
      }
      FiringKeepsGateHistory(presses, createdAt, prevAction, lastActionTime, action, now);
      prevAction := Some(action);
      lastActionTime := now;
      match KeyFor(action)
      case Some(k) =>
        presses := presses + [Press(k, now)];
      case None =>
    }

    /**
     * One pass of the frame loop after detection: classify and act on the
     * body when there is one. A frame without a body changes nothing, so a
     * held pose does not fire again after the body is lost and found.
     */
    method ProcessFrame(frame: Option<PoseSnapshot>, now: real)
      requires Valid()
      modifies this
      ensures Valid() && createdAt == old(createdAt)
      ensures frame.None? ==>
                prevAction == old(prevAction) && lastActionTime == old(lastActionTime) && presses == old(presses)
      ensures frame.Some? && Fires(old(prevAction), old(lastActionTime), DetectPoseAction(frame.value), now) ==>
                prevAction == Some(DetectPoseAction(frame.value)) && lastActionTime == now
                && presses == old(presses) + [Press(KeyFor(DetectPoseAction(frame.value)).value, now)]
      ensures frame.Some? && !Fires(old(prevAction), old(lastActionTime), DetectPoseAction(frame.value), now) ==>
                prevAction == old(prevAction) && lastActionTime == old(lastActionTime) && presses == old(presses)
    {
      match frame
      case Some(pose) =>
        var action := DetectPoseAction(pose);
        ExecuteKeyboardAction(action, now);
      case None =>
    }
  }
}
