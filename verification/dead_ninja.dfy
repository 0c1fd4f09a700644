/** A defeated ninja's body: a kill timer is armed when it lies still near
    the player and disarmed when it is lifted. */
module Dying {
  import opened UnityMath
  import opened Levitation

  /** What one `Update` does to the kill: disarm it, arm it, or neither. */
  datatype KillChange = Disarm | Arm | Keep

  /** The arm/disarm rule: the disarm test comes first and the arm test is
      its else branch, so one update never does both. */
  function KillDecision(willDieSoon: bool, levitated: bool, nearAndSlow: bool): (d: KillChange)
    ensures d == Disarm <==> willDieSoon && levitated
    ensures d == Arm <==> !willDieSoon && !levitated && nearAndSlow
    ensures levitated ==> d != Arm
    ensures d == Arm ==> !willDieSoon
    ensures d == Disarm ==> willDieSoon
  {
    if willDieSoon && levitated then Disarm
    else if !willDieSoon && !levitated && nearAndSlow then Arm
    else Keep
  }

  /** Armed or not, a body that stays lifted is unarmed after at most one
      update and stays unarmed. */
  lemma LiftedBodyEndsUnarmed(willDieSoon: bool, nearAndSlow1: bool, nearAndSlow2: bool)
    ensures var w1 := match KillDecision(willDieSoon, true, nearAndSlow1)
                      case Disarm => false case Arm => true case Keep => willDieSoon;
            && !w1
            && KillDecision(w1, true, nearAndSlow2) == Keep
  {
  }

  lemma SquareSign(k: real)
    ensures Product(k, k) >= 0.0
    ensures Product(k, k) == 0.0 <==> k == 0.0
  {
    if k < 0.0 {
      assert Product(k, k) == Product(-k, -k);
      PositiveProduct(-k, -k);
    } else if k > 0.0 {
      PositiveProduct(k, k);
    }
  }

  lemma PositiveProduct(a: real, b: real)
    requires a > 0.0 && b > 0.0
    ensures Product(a, b) > 0.0
  {
  }

  lemma SqrMagnitudeNonNegative(v: Vec3)
    ensures SqrMagnitude(v) >= 0.0
  {
    SquareSign(v.x);
    SquareSign(v.y);
    SquareSign(v.z);
  }

  class DeadNinja {
    var killDistanceFromPlayer: real
    var deathWaitTime: real
    var chanceOfInstaDeath: real
    var killMaxSpeed: real
    var willDieSoon: bool
    /** The attached KillAfterTime components, by their TimeTillDeath. */
    var killTimers: seq<real>
    /** The body's own Levitatable component. */
    const lvt: Levitatable

    /** A kill timer is attached exactly while the body will die soon. */
    ghost predicate Valid()
      reads this
    {
      |killTimers| == (if willDieSoon then 1 else 0)
    }

    /** The field initialisers, with the body's Levitatable. */
    constructor (levitatable: Levitatable)
      ensures lvt == levitatable && !willDieSoon && killTimers == [] && Valid()
      ensures killDistanceFromPlayer == 100.0 && deathWaitTime == 2.0
      ensures chanceOfInstaDeath == 0.5 && killMaxSpeed == 0.5
    {
      lvt := levitatable;
      killDistanceFromPlayer := 100.0;
      deathWaitTime := 2.0;
      chanceOfInstaDeath := 0.5;
      killMaxSpeed := 0.5;
      willDieSoon := false;
      killTimers := [];
    }

    /** `AttachKillComponent`: die soon, after `deathWaitTime`. */
    method AttachKillComponent()
      modifies this
      ensures willDieSoon && killTimers == old(killTimers) + [deathWaitTime]
      ensures deathWaitTime == old(deathWaitTime) && killDistanceFromPlayer == old(killDistanceFromPlayer)
      ensures chanceOfInstaDeath == old(chanceOfInstaDeath) && killMaxSpeed == old(killMaxSpeed)
    {
      willDieSoon := true;
      killTimers := killTimers + [deathWaitTime];
    }

    /** `Awake`: arm the kill exactly when the random draw exceeds
        `chanceOfInstaDeath`. */
    method Awake(randomValue: real)
      requires !willDieSoon && killTimers == []
      modifies this
      ensures Valid()
      ensures willDieSoon <==> randomValue > chanceOfInstaDeath
      ensures killTimers == if willDieSoon then [deathWaitTime] else []
      ensures deathWaitTime == old(deathWaitTime) && killDistanceFromPlayer == old(killDistanceFromPlayer)
      ensures chanceOfInstaDeath == old(chanceOfInstaDeath) && killMaxSpeed == old(killMaxSpeed)
    {
      willDieSoon := randomValue > chanceOfInstaDeath;
      if willDieSoon {
        AttachKillComponent();
      }
    }

    /** Whether the body is close enough to the player and slow enough to be
        killed; both tests compare squared lengths. */
    function MayArm(playerPos: Vec3, position: Vec3, velocity: Vec3): (b: bool)
      reads this
      ensures killDistanceFromPlayer == 0.0 || killMaxSpeed == 0.0 ==> !b
      ensures position == playerPos && velocity == Zero ==>
                (b <==> killDistanceFromPlayer != 0.0 && killMaxSpeed != 0.0)
    {
      SquareSign(killDistanceFromPlayer);
      SquareSign(killMaxSpeed);
      SqrMagnitudeNonNegative(Sub(playerPos, position));
      SqrMagnitudeNonNegative(velocity);
      && SqrMagnitude(Sub(playerPos, position)) < Product(killDistanceFromPlayer, killDistanceFromPlayer)
      && SqrMagnitude(velocity) < Product(killMaxSpeed, killMaxSpeed)
    }

    /** `Update`: an armed body that is lifted is disarmed and loses its kill
        timer; otherwise an unarmed body that is not lifted, near the player
        and slow, is armed. */
    method Update(playerPos: Vec3, position: Vec3, velocity: Vec3)
      requires Valid()
      modifies this
      ensures Valid()
      ensures match KillDecision(old(willDieSoon), lvt.state == Levitated, MayArm(playerPos, position, velocity))
              case Disarm => !willDieSoon && killTimers == []
              case Arm => willDieSoon && killTimers == [deathWaitTime]
              case Keep => willDieSoon == old(willDieSoon) && killTimers == old(killTimers)
      ensures lvt.state == Levitated ==> !willDieSoon
      ensures old(willDieSoon) ==> killTimers == [] || killTimers == old(killTimers)
      ensures deathWaitTime == old(deathWaitTime) && killDistanceFromPlayer == old(killDistanceFromPlayer)
      ensures chanceOfInstaDeath == old(chanceOfInstaDeath) && killMaxSpeed == old(killMaxSpeed)
    {
      if willDieSoon && lvt.state == Levitated {
        willDieSoon := false;
        killTimers := killTimers[1..];
      } else if !willDieSoon && lvt.state != Levitated && MayArm(playerPos, position, velocity) {
        AttachKillComponent();
      }
    }
  }
}
