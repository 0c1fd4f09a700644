/** An object that can be levitated and thrown: a three-state machine
    (Inert, Levitated, Thrown) that requests one physics action per tick. */
module Levitation {
  import opened UnityMath
  import opened Wrappers

  datatype States = Inert | Levitated | Thrown

  /** Gains for one axis group of the hover seek. */
  datatype SubData = SubData(targetDistanceFromPlayer: real, velocityTowardsTarget: real, velocityDistanceScale: real)

  /** Hover configuration; targetDir is the horizontal direction from the
      player to the object, fixed when it is levitated. */
  datatype LevitatedData = LevitatedData(targetDir: Vec2, horizontal: SubData, vertical: SubData)

  /** What a tick asks of the rigid body. */
  datatype PhysicsRequest =
    | AddAcceleration(acceleration: Vec3)
    | MovePosition(position: Vec3)

  /** The thrown countdown: the state and TimeTillInert. */
  datatype Phase = Phase(state: States, timeTillInert: real)

  const NotThrownTime: real := -1.0

  /** `HorizontalMask`: the part of v in the ground plane; what it drops is
      purely vertical. */
  function HorizontalMask(v: Vec3): (h: Vec3)
    ensures h.y == 0.0
    ensures Sub(v, h) == Vec3(0.0, v.y, 0.0)
    ensures SqrMagnitude(h) <= SqrMagnitude(v)
  {
    Vec3(v.x, 0.0, v.z)
  }

  /** `VerticalMask`: the vertical part of v, which together with the
      horizontal part gives back v. */
  function VerticalMask(v: Vec3): (u: Vec3)
    ensures u.x == 0.0 && u.z == 0.0
    ensures Add(HorizontalMask(v), u) == v
    ensures Dot(HorizontalMask(v), u) == 0.0
  {
    Vec3(0.0, v.y, 0.0)
  }

  /** Applying a mask twice changes nothing, and each mask removes the
      other's part entirely. */
  lemma MasksPartition(v: Vec3)
    ensures HorizontalMask(HorizontalMask(v)) == HorizontalMask(v)
    ensures VerticalMask(VerticalMask(v)) == VerticalMask(v)
    ensures VerticalMask(HorizontalMask(v)) == Zero && HorizontalMask(VerticalMask(v)) == Zero
  {
  }

  /** `GetTargetPosition`: the hover point, horizontally along targetDir at
      the horizontal distance and raised by the vertical distance. */
  function GetTargetPosition(data: LevitatedData, playerPos: Vec3): (target: Vec3)
    ensures HorizontalMask(Sub(target, playerPos)) ==
            Scale(data.horizontal.targetDistanceFromPlayer, Vec3(data.targetDir.x, 0.0, data.targetDir.y))
    ensures target.y == playerPos.y + data.vertical.targetDistanceFromPlayer
  {
    Add(Add(playerPos, Scale(data.horizontal.targetDistanceFromPlayer, Vec3(data.targetDir.x, 0.0, data.targetDir.y))),
        Vec3(0.0, data.vertical.targetDistanceFromPlayer, 0.0))
  }

  /** The seek request of one axis group: a MovePosition by k times the
      masked displacement from the body's position at the start of the tick,
      or nothing when that displacement is zero. */
  function SeekRequest(bodyPos: Vec3, k: real, partial: Vec3): seq<PhysicsRequest> {
    if SqrMagnitude(partial) != 0.0 then [MovePosition(Add(bodyPos, Scale(k, partial)))] else []
  }

  /** The fraction of the remaining displacement one axis group covers in a
      tick of length dt. */
  function Gain(sub: SubData, dt: real): real {
    dt * sub.velocityTowardsTarget * sub.velocityDistanceScale
  }

  /** The requests of a Levitated tick: horizontal first, then vertical. */
  function HoverRequests(data: LevitatedData, dt: real, playerPos: Vec3, bodyPos: Vec3): seq<PhysicsRequest> {
    var towards := Sub(GetTargetPosition(data, playerPos), bodyPos);
    SeekRequest(bodyPos, Gain(data.horizontal, dt), HorizontalMask(towards))
    + SeekRequest(bodyPos, Gain(data.vertical, dt), VerticalMask(towards))
  }

  /** A horizontal hover request only ever moves horizontally and a vertical
      one only vertically, there is one request per axis group whose masked
      displacement is non-zero, and a body already at its target requests
      nothing. */
  lemma HoverRequestsSeparateAxes(data: LevitatedData, dt: real, playerPos: Vec3, bodyPos: Vec3)
    ensures var towards := Sub(GetTargetPosition(data, playerPos), bodyPos);
            var hMoves := SqrMagnitude(HorizontalMask(towards)) != 0.0;
            var vMoves := SqrMagnitude(VerticalMask(towards)) != 0.0;
            var reqs := HoverRequests(data, dt, playerPos, bodyPos);
            && |reqs| == (if hMoves then 1 else 0) + (if vMoves then 1 else 0)
            && (forall i :: 0 <= i < |reqs| ==> reqs[i].MovePosition?)
            && (towards == Zero ==> reqs == [])
            && (hMoves ==> VerticalMask(Sub(reqs[0].position, bodyPos)) == Zero)
            && (vMoves ==> HorizontalMask(Sub(reqs[|reqs| - 1].position, bodyPos)) == Zero)
  {
    var towards := Sub(GetTargetPosition(data, playerPos), bodyPos);
    var kh := Gain(data.horizontal, dt);
    var kv := Gain(data.vertical, dt);
    assert HoverRequests(data, dt, playerPos, bodyPos) ==
           SeekRequest(bodyPos, kh, HorizontalMask(towards)) + SeekRequest(bodyPos, kv, VerticalMask(towards));
    MaskedStep(bodyPos, kh, towards);
    MaskedStep(bodyPos, kv, towards);
  }

  /** A step along one masked part leaves the other part of the position
      untouched. */
  lemma MaskedStep(p: Vec3, k: real, t: Vec3)
    ensures VerticalMask(Sub(Add(p, Scale(k, HorizontalMask(t))), p)) == Zero
    ensures HorizontalMask(Sub(Add(p, Scale(k, VerticalMask(t))), p)) == Zero
  {
  }

  /** One tick of the thrown countdown; other states keep their phase. */
  function CountdownStep(p: Phase, dt: real): (q: Phase)
    ensures p.state != Thrown ==> q == p
    ensures q.state == Thrown ==> p.state == Thrown && q.timeTillInert == p.timeTillInert - dt > 0.0
    ensures q.state == Thrown && dt > 0.0 ==> q.timeTillInert < p.timeTillInert
    ensures p.state == Thrown ==> (q.state == Thrown <==> p.timeTillInert > dt)
    ensures p.state == Thrown && q.state != Thrown ==> q == Phase(Inert, NotThrownTime)
  {
    match p.state
    case Thrown =>
      if p.timeTillInert - dt <= 0.0 then Phase(Inert, NotThrownTime)
      else Phase(Thrown, p.timeTillInert - dt)
    case _ => p
  }

  /** The phase after n ticks of length dt with no external call. */
  function RunTicks(p: Phase, dt: real, n: nat): Phase
    decreases n
  {
    if n == 0 then p else RunTicks(CountdownStep(p, dt), dt, n - 1)
  }

  /** A throw of duration d with ticks of dt stays Thrown for the first n - 1
      ticks and is Inert after the n-th, where n is the least positive count
      with d - n * dt <= 0 (that is, ceil(d / dt) for d > 0). */
  lemma {:induction false} ThrowReturnsToInert(d: real, dt: real, n: nat)
    requires dt > 0.0 && n >= 1
    requires d - (n as real) * dt <= 0.0
    requires n == 1 || d - ((n - 1) as real) * dt > 0.0
    ensures RunTicks(Phase(Thrown, d), dt, n) == Phase(Inert, NotThrownTime)
    ensures forall k :: 1 <= k < n ==> RunTicks(Phase(Thrown, d), dt, k) == Phase(Thrown, d - (k as real) * dt)
    decreases n
  {
    if n == 1 {
      assert RunTicks(Phase(Thrown, d), dt, 1) == RunTicks(Phase(Inert, NotThrownTime), dt, 0);
    } else {
      assert d - dt > 0.0 by {
        assert ((n - 1) as real) * dt >= dt;
      }
      ThrowReturnsToInert(d - dt, dt, n - 1);
      forall k | 1 <= k < n
        ensures RunTicks(Phase(Thrown, d), dt, k) == Phase(Thrown, d - (k as real) * dt)
      {
        if k > 1 {
          assert RunTicks(Phase(Thrown, d - dt), dt, k - 1) == Phase(Thrown, d - dt - ((k - 1) as real) * dt);
        }
      }
    }
  }

  /** For every duration and positive tick length such a tick count exists. */
  lemma TicksUntilInert(d: real, dt: real) returns (n: nat)
    requires dt > 0.0
    ensures n >= 1 && d - (n as real) * dt <= 0.0
    ensures n == 1 || d - ((n - 1) as real) * dt > 0.0
  {
    if d <= dt {
      n := 1;
    } else {
      var q := d / dt;
      var f := q.Floor;
      assert f as real <= q < f as real + 1.0;
      assert q * dt == d;
      if f as real == q {
        n := f;
        assert (n as real) * dt == d;
        assert ((n - 1) as real) * dt == d - dt;
      } else {
        n := f + 1;
        assert (f as real) * dt < d by {
          assert (f as real) < q;
        }
        var nr := n as real;
        assert nr > q;
        MulMonotonic(q, nr, dt);
        calc {
          d;
          q * dt;
        <  nr * dt;
        }
      }
    }
  }

  lemma MulMonotonic(a: real, b: real, c: real)
    requires a < b && c > 0.0
    ensures a * c < b * c
  {
    assert b * c - a * c == (b - a) * c;
  }

  class Levitatable {
    var state: States
    var levitating: LevitatedData
    /** Thrown configuration and countdown. */
    var acceleration: real
    var accelerationDuration: real
    var timeTillInert: real
    var direction: Vec3
    var gravityAcceleration: real
    /** Whether the engine applies its own gravity to the body. */
    var useGravity: bool
    /** The optional throwable mesh renderer: None when there is none,
        otherwise whether it is enabled. */
    var renderer: Option<bool>

    /** The field initialisers, with the designer-set parameters. */
    constructor (hover: LevitatedData, throwAcceleration: real, throwDuration: real, gravity: real, hasRenderer: bool)
      ensures state == Inert && levitating == hover.(targetDir := Vec2(1.0, 0.0))
      ensures renderer == if hasRenderer then Some(true) else None
      ensures acceleration == throwAcceleration && accelerationDuration == throwDuration
      ensures timeTillInert == NotThrownTime && direction == Vec3(1.0, 0.0, 0.0)
      ensures gravityAcceleration == gravity && useGravity
    {
      state := Inert;
      levitating := hover.(targetDir := Vec2(1.0, 0.0));
      acceleration := throwAcceleration;
      accelerationDuration := throwDuration;
      timeTillInert := NotThrownTime;
      direction := Vec3(1.0, 0.0, 0.0);
      gravityAcceleration := gravity;
      useGravity := true;
      renderer := if hasRenderer then Some(true) else None;
    }

    /** `Awake`: engine gravity off, state Inert. */
    method Awake()
      modifies this
      ensures !useGravity && state == Inert
      ensures renderer == if old(renderer).Some? then Some(false) else None
      ensures levitating == old(levitating) && timeTillInert == old(timeTillInert)
      ensures direction == old(direction) && acceleration == old(acceleration)
      ensures accelerationDuration == old(accelerationDuration)
      ensures gravityAcceleration == old(gravityAcceleration)
    {
      useGravity := false;
      state := Inert;
      if renderer.Some? {
        renderer := Some(false);
      }
    }

    /** `FixedUpdate`: Inert falls under the configured gravity, Levitated
        seeks its hover point, Thrown is pushed along its direction until the
        countdown runs out and it becomes Inert on its own. */
    method FixedUpdate(dt: real, playerPos: Vec3, bodyPos: Vec3) returns (requests: seq<PhysicsRequest>)
      modifies this
      ensures !useGravity
      ensures Phase(state, timeTillInert) == CountdownStep(old(Phase(state, timeTillInert)), dt)
      ensures old(state) == Inert ==> requests == [AddAcceleration(Vec3(0.0, -gravityAcceleration, 0.0))]
      ensures old(state) == Levitated ==> requests == HoverRequests(levitating, dt, playerPos, bodyPos)
      ensures old(state) == Thrown ==>
                requests == if state == Inert then [] else [AddAcceleration(Scale(acceleration, direction))]
      ensures levitating == old(levitating) && direction == old(direction) && acceleration == old(acceleration)
      ensures accelerationDuration == old(accelerationDuration)
      ensures gravityAcceleration == old(gravityAcceleration) && renderer == old(renderer)
    {
      useGravity := false;
      match state {
        case Inert =>
          requests := [AddAcceleration(Vec3(0.0, -gravityAcceleration, 0.0))];
        case Levitated =>
          var towards := Sub(GetTargetPosition(levitating, playerPos), bodyPos);
          requests := [];
          var partial := HorizontalMask(towards);
          if SqrMagnitude(partial) != 0.0 {
            var k := Gain(levitating.horizontal, dt);
            requests := requests + [MovePosition(Add(bodyPos, Scale(k, partial)))];
          }
          partial := VerticalMask(towards);
          if SqrMagnitude(partial) != 0.0 {
            var k := Gain(levitating.vertical, dt);
            requests := requests + [MovePosition(Add(bodyPos, Scale(k, partial)))];
          }
        case Thrown =>
          timeTillInert := timeTillInert - dt;
          if timeTillInert <= 0.0 {
            state := Inert;
            timeTillInert := NotThrownTime;
            requests := [];
          } else {
            requests := [AddAcceleration(Scale(acceleration, direction))];
          }
      }
    }

    /** The effect of `Levitate(targetDir)` on this object. */
    twostate predicate LevitatedTowards(targetDir: Vec2)
      reads this
    {
      && state == Levitated && levitating == old(levitating).(targetDir := targetDir)
      && renderer == (if old(renderer).Some? then Some(true) else None)
      && timeTillInert == old(timeTillInert) && direction == old(direction)
      && acceleration == old(acceleration) && accelerationDuration == old(accelerationDuration)
      && gravityAcceleration == old(gravityAcceleration) && useGravity == old(useGravity)
    }

    /** The effect of `Throw(dir)` on this object. */
    twostate predicate ThrownAlong(dir: Vec3)
      reads this
    {
      && state == Thrown && timeTillInert == accelerationDuration && direction == dir
      && renderer == (if old(renderer).Some? then Some(false) else None)
      && levitating == old(levitating)
      && acceleration == old(acceleration) && accelerationDuration == old(accelerationDuration)
      && gravityAcceleration == old(gravityAcceleration) && useGravity == old(useGravity)
    }

    /** `Levitate`: from any state, Levitated with the given horizontal
        direction from the player; the mesh renderer, if any, is shown. */
    method Levitate(targetDir: Vec2)
      modifies this
      ensures LevitatedTowards(targetDir)
    {
      state := Levitated;
      levitating := levitating.(targetDir := targetDir);
      if renderer.Some? {
        renderer := Some(true);
      }
    }

    /** `Throw`: from any state, Thrown along dir with a full countdown; the
        mesh renderer, if any, is hidden. */
    method Throw(dir: Vec3)
      modifies this
      ensures ThrownAlong(dir)
    {
      state := Thrown;
      timeTillInert := accelerationDuration;
      direction := dir;
      if renderer.Some? {
        renderer := Some(false);
      }
    }
  }
}
