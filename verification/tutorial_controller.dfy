/** The tutorial: on each side of the room the player turns towards a
    barrel, looks above it, nods to lift it and throws it; after both sides
    the screen fades to the game. One prompt is shown per step. */
module Tutorial {
  import opened UnityMath
  import opened Fading

  datatype States = TurnTowardsBarrel | LookAboveBarrel | NodAtBarrel | ThrowBarrel

  datatype Side = Left | Right

  /** A prompt object: the text for one step inside one side's container. */
  datatype Prompt = Prompt(side: Side, state: States)

  /** What an `Update` did. NoFader is the null dereference when no fader
      exists as the tutorial ends. */
  datatype TutorialStep = Stayed | Advanced | SwitchedSide | Finished | NoFader

  /** The step that follows s in the tutorial order: no step leads to
      itself or back to the first one. */
  function Succ(s: States): (r: States)
    requires s != ThrowBarrel
    ensures r != s && r != TurnTowardsBarrel
  {
    match s
    case TurnTowardsBarrel => LookAboveBarrel
    case LookAboveBarrel => NodAtBarrel
    case NodAtBarrel => ThrowBarrel
  }

  /** The gaze test: the absolute cosine exceeds 0.9, so looking straight
      away passes as well as looking straight at the target. */
  predicate GazePasses(dot: real) {
    Abs(dot) > 0.9
  }

  lemma GazeIsSymmetric(dot: real)
    ensures GazePasses(dot) <==> GazePasses(-dot)
    ensures GazePasses(1.0) && GazePasses(-1.0) && !GazePasses(0.0)
  {
  }

  class TutorialController {
    var currentState: States
    var currentSide: Side
    var sidesCompleted: int
    /** Which side's container is active and which one `container` names. */
    var leftActive: bool
    var rightActive: bool
    var container: Side
    /** For each side, the prompts of its container that are active. */
    var shown: map<Side, set<States>>
    var activeChild: Prompt
    /** Whether the tutorial object is active (it receives updates). */
    var enabled: bool

    /** One prompt of the current container is shown, the current step's;
        that container alone is active; the tutorial is in the Left container
        exactly until a side is completed, and it is disabled only after the
        second. `CurrentSide` is never assigned, so it stays Left. */
    ghost predicate Valid()
      reads this
    {
      && currentSide == Left
      && leftActive == (container == Left) && rightActive == (container == Right)
      && Left in shown && Right in shown && container in shown
      && shown[container] == {currentState}
      && activeChild == Prompt(container, currentState)
      && sidesCompleted >= 0
      && (container == Left <==> sidesCompleted == 0)
      && (!enabled ==> sidesCompleted == 2)
    }

    /** The scene as loaded: every object active, the properties at their
        defaults. */
    constructor ()
      ensures enabled && leftActive && rightActive
      ensures shown == map[Left := {TurnTowardsBarrel, LookAboveBarrel, NodAtBarrel, ThrowBarrel},
                           Right := {TurnTowardsBarrel, LookAboveBarrel, NodAtBarrel, ThrowBarrel}]
      ensures currentState == TurnTowardsBarrel && currentSide == Left && sidesCompleted == 0
    {
      var all := {TurnTowardsBarrel, LookAboveBarrel, NodAtBarrel, ThrowBarrel};
      currentState := TurnTowardsBarrel;
      currentSide := Left;
      sidesCompleted := 0;
      leftActive := true;
      rightActive := true;
      container := Left;
      shown := map[Left := all, Right := all];
      activeChild := Prompt(Left, TurnTowardsBarrel);
      enabled := true;
    }

    /** `ChangeState`: show the new step's prompt in the current container,
        hide its other three, and make it the active child. */
    method ChangeState(newState: States)
      requires container in shown
      modifies this
      ensures shown == old(shown)[container := {newState}]
      ensures activeChild == Prompt(container, newState) && currentState == newState
      ensures currentSide == old(currentSide) && sidesCompleted == old(sidesCompleted) && container == old(container)
      ensures leftActive == old(leftActive) && rightActive == old(rightActive) && enabled == old(enabled)
    {
      shown := shown[container := {newState}];
      activeChild := Prompt(container, newState);
      currentState := newState;
    }

    /** `ChangeSide`: activate exactly the new side's container, take its
        prompts and restart at the first step. */
    method ChangeSide(newSide: Side)
      requires Left in shown && Right in shown
      modifies this
      ensures leftActive == (newSide == Left) && rightActive == (newSide == Right)
      ensures container == newSide && currentState == TurnTowardsBarrel
      ensures shown == old(shown)[newSide := {TurnTowardsBarrel}]
      ensures activeChild == Prompt(newSide, TurnTowardsBarrel)
      ensures currentSide == old(currentSide) && sidesCompleted == old(sidesCompleted) && enabled == old(enabled)
    {
      match newSide {
        case Left =>
          leftActive := true;
          rightActive := false;
        case Right =>
          leftActive := false;
          rightActive := true;
      }
      container := newSide;
      ChangeState(TurnTowardsBarrel);
    }

    /** `Awake`: start in the Left container at the first step. */
    method Awake()
      requires Left in shown && Right in shown && enabled && currentSide == Left
      modifies this
      ensures Valid()
      ensures container == Left && currentState == TurnTowardsBarrel && sidesCompleted == 0 && enabled
    {
      ChangeSide(Left);
      sidesCompleted := 0;
    }

    /** `Update`: at most one step forward, taken when its condition holds:
        facing the barrel horizontally, looking above it, lifting something,
        and finally no longer lifting anything, which completes the side.
        After the second side the fader starts at speed 0.25 with the scene
        load and its own destruction subscribed, and the tutorial disables
        itself. */
    method Update(turnDot: real, lookDot: real, isLevitating: bool, fader: FadeToGameScene?)
      returns (step: TutorialStep)
      requires Valid() && enabled
      modifies this, fader
      ensures Valid()
      ensures old(currentState) == TurnTowardsBarrel ==>
                if GazePasses(turnDot) then step == Advanced && currentState == LookAboveBarrel else step == Stayed
      ensures old(currentState) == LookAboveBarrel ==>
                if GazePasses(lookDot) then step == Advanced && currentState == NodAtBarrel else step == Stayed
      ensures old(currentState) == NodAtBarrel ==>
                if isLevitating then step == Advanced && currentState == ThrowBarrel else step == Stayed
      ensures old(currentState) == ThrowBarrel && isLevitating ==> step == Stayed
      ensures old(currentState) == ThrowBarrel && !isLevitating ==>
                && sidesCompleted == old(sidesCompleted) + 1
                && (sidesCompleted != 2 ==>
                      step == SwitchedSide && container == Right && currentState == TurnTowardsBarrel && enabled)
                && (sidesCompleted == 2 && fader != null ==>
                      step == Finished && !enabled && container == old(container) &&
                      fader.fadeSpeed == 0.25 && fader.currentFadeValue == LowFade &&
                      fader.onFadedOut == old(fader.onFadedOut) + [LoadGameScene] &&
                      fader.onFadedIn == old(fader.onFadedIn) + [DestroyFader])
                && (sidesCompleted == 2 && fader == null ==>
                      step == NoFader && enabled && currentState == ThrowBarrel && container == old(container))
      ensures step == Stayed ==> currentState == old(currentState) && container == old(container) &&
                                 sidesCompleted == old(sidesCompleted) && enabled
      ensures step == Advanced ==> old(currentState) != ThrowBarrel && currentState == Succ(old(currentState)) &&
                                   container == old(container) && sidesCompleted == old(sidesCompleted) && enabled
      ensures step in {SwitchedSide, Finished, NoFader} ==>
                old(currentState) == ThrowBarrel && !isLevitating && sidesCompleted == old(sidesCompleted) + 1
      ensures step in {Finished, NoFader} <==>
                old(currentState) == ThrowBarrel && !isLevitating && old(sidesCompleted) == 1
      ensures step != Finished && step != NoFader ==> fader == null || unchanged(fader)
      ensures step in {Stayed, Advanced, Finished, NoFader} ==> shown == old(shown)[container := {currentState}]
      ensures step == SwitchedSide ==> shown == old(shown)[Right := {TurnTowardsBarrel}]
      ensures step == Finished ==> currentState == old(currentState)
    {
      match currentState {
        case TurnTowardsBarrel =>
          if GazePasses(turnDot) {
            ChangeState(LookAboveBarrel);
            step := Advanced;
          } else {
            step := Stayed;
          }
        case LookAboveBarrel =>
          if GazePasses(lookDot) {
            ChangeState(NodAtBarrel);
            step := Advanced;
          } else {
            step := Stayed;
          }
        case NodAtBarrel =>
          if isLevitating {
            ChangeState(ThrowBarrel);
            step := Advanced;
          } else {
            step := Stayed;
          }
        case ThrowBarrel =>
          if !isLevitating {
            sidesCompleted := sidesCompleted + 1;
            if sidesCompleted == 2 {
              if fader == null {
                step := NoFader;
                return;
              }
              fader.StartFade(0.25);
              fader.SubscribeFadedOut(LoadGameScene);
              fader.SubscribeFadedIn(DestroyFader);
              enabled := false;
              step := Finished;
            } else {
              ChangeSide(Right);
              step := SwitchedSide;
            }
          } else {
            step := Stayed;
          }
      }
    }
  }
}
