/** The player's gesture controller: a cooldown timer and the list of the
    objects currently held up. A nod lifts the objects along the gaze, a
    horizontal jerk of the face (or the throw key) throws everything held. */
module Gestures {
  import opened UnityMath
  import opened Wrappers
  import opened Levitation

  /** What the lift sweep found: the objects in hit order, or the position
      of the first hit that has no Levitatable component (an exception). */
  datatype LiftResult =
    | Lifted(objects: seq<Levitatable>)
    | MissingComponent(index: nat)

  /** The outcome of one `Update`. */
  datatype GestureOutcome =
    | Cooldown
    | NoGesture
    | Nodded
    | NodFailed(index: nat)
    | Threw

  /** The outcome of `Awake`: ready, or the exception it throws. */
  datatype AwakeResult =
    | Ready
    | DuplicateInstance
    | MissingHeadTracker
    | MissingFaceTracker
    | MissingCameraTracker

  /** How many hits the sweep examines: the loop stops at the end of the
      hits or once `maxLevitations` objects are collected. */
  function SweepLength(hitCount: nat, maxLevitations: int): (n: nat)
    ensures n <= hitCount && n as int <= (if maxLevitations < 0 then 0 else maxLevitations)
    ensures n == hitCount || n as int == (if maxLevitations < 0 then 0 else maxLevitations)
  {
    if maxLevitations <= 0 then 0
    else if hitCount <= maxLevitations then hitCount
    else maxLevitations
  }

  predicate NoDuplicates<T(==)>(s: seq<T>) {
    forall i, j :: 0 <= i < j < |s| ==> s[i] != s[j]
  }

  /** The list after offering each item in turn and appending those not yet
      in it. */
  function AddNew<T(==)>(list: seq<T>, items: seq<T>): seq<T>
    decreases |items|
  {
    if items == [] then list
    else
      var prev := AddNew(list, items[..|items| - 1]);
      var x := items[|items| - 1];
      if x in prev then prev else prev + [x]
  }

  /** Offering items keeps the list as a prefix, keeps it duplicate-free,
      and the result holds exactly the old elements and the offered ones. */
  lemma {:induction false} AddNewProperties<T>(list: seq<T>, items: seq<T>)
    requires NoDuplicates(list)
    ensures var r := AddNew(list, items);
            && |list| <= |r| && r[..|list|] == list
            && NoDuplicates(r)
            && (forall x :: x in r <==> x in list || x in items)
    decreases |items|
  {
    if items != [] {
      var init := items[..|items| - 1];
      AddNewProperties(list, init);
      var prev := AddNew(list, init);
      var x := items[|items| - 1];
      assert items == init + [x];
      if x !in prev {
        var r := prev + [x];
        assert r[..|list|] == prev[..|list|];
        forall i, j | 0 <= i < j < |r|
          ensures r[i] != r[j]
        {
          if j == |prev| {
            assert r[i] == prev[i];
          }
        }
      }
    }
  }

  /** An item already in the list is not appended again. */
  lemma {:induction false} AddNewKeepsPresent<T>(list: seq<T>, items: seq<T>)
    requires forall x :: x in items ==> x in list
    ensures AddNew(list, items) == list
    decreases |items|
  {
    if items != [] {
      AddNewKeepsPresent(list, items[..|items| - 1]);
      assert items[|items| - 1] in items;
    }
  }

  /** The Levitatable components of the first n hits, all of which have one. */
  function HitValues(hits: seq<Option<Levitatable>>, n: nat): (r: seq<Levitatable>)
    requires n <= |hits| && forall j :: 0 <= j < n ==> hits[j].Some?
    ensures |r| == n && forall j :: 0 <= j < n ==> hits[j] == Some(r[j])
  {
    seq(n, j requires 0 <= j < n => hits[j].value)
  }

  function HitObjects(hits: seq<Option<Levitatable>>): set<Levitatable> {
    set i | 0 <= i < |hits| && hits[i].Some? :: hits[i].value
  }

  class HumanBehavior {
    var nodYVelocity: real
    var jerkHorizontalSpeed: real
    var disableGesturesDuration: real
    var maxLevitations: int
    var timeSinceLastGesture: real
    /** Whether the inspector references are set. */
    var hasHeadTracker: bool
    var hasFaceTracker: bool
    var hasCameraTracker: bool
    var levitators: seq<Levitatable>

    ghost predicate Valid()
      reads this
    {
      NoDuplicates(levitators)
    }

    /** The field initialisers, with the inspector references given. */
    constructor (head: bool, face: bool, camera: bool)
      ensures Valid()
      ensures nodYVelocity == -3.5 && jerkHorizontalSpeed == 8.0
      ensures disableGesturesDuration == 0.25 && maxLevitations == 8
      ensures timeSinceLastGesture == 9999.0 && levitators == []
      ensures hasHeadTracker == head && hasFaceTracker == face && hasCameraTracker == camera
    {
      nodYVelocity := -3.5;
      jerkHorizontalSpeed := 8.0;
      disableGesturesDuration := 0.25;
      maxLevitations := 8;
      timeSinceLastGesture := 9999.0;
      hasHeadTracker := head;
      hasFaceTracker := face;
      hasCameraTracker := camera;
      levitators := [];
    }

    /** `IsLevitating`. */
    function IsLevitating(): (b: bool)
      reads this
      ensures b <==> exists l :: l in levitators
    {
      assert |levitators| > 0 ==> levitators[0] in levitators;
      |levitators| > 0
    }

    /** `Awake`: a second instance and each missing reference throw, in
        that order; `registered` says whether this became the instance
        (which happens before the reference checks). */
    method Awake(instanceExists: bool) returns (r: AwakeResult, registered: bool)
      modifies this
      ensures registered <==> !instanceExists
      ensures instanceExists ==> r == DuplicateInstance
      ensures !instanceExists && !hasHeadTracker ==> r == MissingHeadTracker
      ensures !instanceExists && hasHeadTracker && !hasFaceTracker ==> r == MissingFaceTracker
      ensures !instanceExists && hasHeadTracker && hasFaceTracker && !hasCameraTracker ==> r == MissingCameraTracker
      ensures r == Ready <==> !instanceExists && hasHeadTracker && hasFaceTracker && hasCameraTracker
      ensures levitators == if r == Ready then [] else old(levitators)
      ensures Valid() || r != Ready
      ensures timeSinceLastGesture == old(timeSinceLastGesture) && maxLevitations == old(maxLevitations)
      ensures hasHeadTracker == old(hasHeadTracker) && hasFaceTracker == old(hasFaceTracker)
      ensures hasCameraTracker == old(hasCameraTracker)
    {
      registered := !instanceExists;
      if instanceExists {
        r := DuplicateInstance;
      } else if !hasHeadTracker {
        r := MissingHeadTracker;
      } else if !hasFaceTracker {
        r := MissingFaceTracker;
      } else if !hasCameraTracker {
        r := MissingCameraTracker;
      } else {
        levitators := [];
        r := Ready;
      }
    }

    /** `FindLevitators`: with no blocker ahead the list is empty; otherwise
        the Levitatable of each hit in order, up to `maxLevitations` of them,
        failing at the first hit that has none. */
    method FindLevitators(blockerHit: bool, hits: seq<Option<Levitatable>>) returns (r: LiftResult)
      ensures !blockerHit ==> r == Lifted([])
      ensures blockerHit ==>
                var n := SweepLength(|hits|, maxLevitations);
                && (r.Lifted? <==> forall j :: 0 <= j < n ==> hits[j].Some?)
                && (r.Lifted? ==> |r.objects| == n && forall j :: 0 <= j < n ==> hits[j] == Some(r.objects[j]))
                && (r.MissingComponent? ==> r.index < n && hits[r.index].None? &&
                                             forall j :: 0 <= j < r.index ==> hits[j].Some?)
      ensures r.Lifted? ==> forall l :: l in r.objects ==> l in HitObjects(hits)
    {
      if !blockerHit {
        return Lifted([]);
      }
      var ret: seq<Levitatable> := [];
      var i := 0;
      while i < |hits| && |ret| < maxLevitations
        invariant 0 <= i <= SweepLength(|hits|, maxLevitations)
        invariant |ret| == i
        invariant forall j :: 0 <= j < i ==> hits[j] == Some(ret[j])
      {
        match hits[i] {
          case None =>
            return MissingComponent(i);
          case Some(lev) =>
            ret := ret + [lev];
        }
        i := i + 1;
      }
      r := Lifted(ret);
      forall l | l in r.objects
        ensures l in HitObjects(hits)
      {
        var j :| 0 <= j < |ret| && ret[j] == l;
        assert hits[j].Some? && hits[j].value == l;
      }
    }

    /** `Update`: the timer grows by dt; once it exceeds the cooldown a nod
        (head falling faster than `nodYVelocity`) lifts the objects found
        along the gaze and resets the timer, and otherwise a horizontal face
        jerk or the throw input throws every held object and empties the
        list, leaving the timer running. */
    method Update(dt: real, headVelocity: Vec3, faceVelocity: Vec3, throwInput: bool,
                  blockerHit: bool, hits: seq<Option<Levitatable>>, aim: Levitatable -> Vec2, throwDir: Vec3)
      returns (outcome: GestureOutcome)
      requires Valid()
      modifies this, levitators, HitObjects(hits)
      ensures Valid()
      ensures nodYVelocity == old(nodYVelocity) && jerkHorizontalSpeed == old(jerkHorizontalSpeed)
      ensures disableGesturesDuration == old(disableGesturesDuration) && maxLevitations == old(maxLevitations)
      ensures hasHeadTracker == old(hasHeadTracker) && hasFaceTracker == old(hasFaceTracker)
      ensures hasCameraTracker == old(hasCameraTracker)
      ensures var armed := old(timeSinceLastGesture) + dt > old(disableGesturesDuration);
              var nod := headVelocity.y < nodYVelocity;
              var jerk := SqrMagnitude(HorizontalMask(faceVelocity)) >= jerkHorizontalSpeed * jerkHorizontalSpeed;
              && (!armed ==> outcome == Cooldown)
              && (armed && nod ==> outcome.Nodded? || outcome.NodFailed?)
              && (armed && !nod && (jerk || throwInput) ==> outcome == Threw)
              && (armed && !nod && !jerk && !throwInput ==> outcome == NoGesture)
      ensures outcome.Nodded? || outcome.NodFailed? ==> timeSinceLastGesture == 0.0
      ensures !outcome.Nodded? && !outcome.NodFailed? ==> timeSinceLastGesture == old(timeSinceLastGesture) + dt
      ensures outcome != Threw && !outcome.Nodded? ==>
                levitators == old(levitators) && forall l :: l in old(levitators) || l in HitObjects(hits) ==> unchanged(l)
      ensures outcome.NodFailed? ==>
                && blockerHit
                && outcome.index < SweepLength(|hits|, old(maxLevitations))
                && hits[outcome.index].None?
                && forall j :: 0 <= j < outcome.index ==> hits[j].Some?
      ensures var swept := SweepLength(|hits|, old(maxLevitations));
              outcome.Nodded? || outcome.NodFailed? ==>
                (outcome == Nodded <==> !blockerHit || forall j :: 0 <= j < swept ==> hits[j].Some?)
      ensures outcome == Nodded ==>
                var found := if blockerHit then SweepLength(|hits|, old(maxLevitations)) else 0;
                && (forall j :: 0 <= j < found ==> hits[j].Some?)
                && levitators == AddNew(old(levitators), HitValues(hits, found))
                && (forall l :: l in levitators ==> l in old(levitators) || l in HitObjects(hits))
                && (forall l :: l in HitObjects(hits) && l in levitators && l !in old(levitators) ==> l.LevitatedTowards(aim(l)))
                && (forall l :: l in old(levitators) ==> unchanged(l))
      ensures outcome == Threw ==>
                levitators == [] && forall l :: l in old(levitators) ==> l.ThrownAlong(throwDir)
      ensures forall l :: l in HitObjects(hits) && l !in old(levitators) && l !in levitators ==> unchanged(l)
    {
      timeSinceLastGesture := timeSinceLastGesture + dt;
      if timeSinceLastGesture <= disableGesturesDuration {
        return Cooldown;
      }
      if headVelocity.y < nodYVelocity {
        timeSinceLastGesture := 0.0;
        var r := FindLevitators(blockerHit, hits);
        if r.MissingComponent? {
          return NodFailed(r.index);
        }
        outcome := Nodded;
        LiftAll(r.objects, aim, hits);
        ghost var found := if blockerHit then SweepLength(|hits|, maxLevitations) else 0;
        assert r.objects == HitValues(hits, found);
      } else if SqrMagnitude(HorizontalMask(faceVelocity)) >= jerkHorizontalSpeed * jerkHorizontalSpeed || throwInput {
        ThrowAll(throwDir);
        outcome := Threw;
      } else {
        outcome := NoGesture;
      }
    }

    /** The nod's loop: append each found object not yet held and levitate
        it, towards the direction `aim` gives for it. */
    method LiftAll(found: seq<Levitatable>, aim: Levitatable -> Vec2, ghost hits: seq<Option<Levitatable>>)
      requires Valid()
      requires forall l :: l in found ==> l in HitObjects(hits)
      modifies this, HitObjects(hits)
      ensures Valid()
      ensures levitators == AddNew(old(levitators), found)
      ensures forall l :: l in levitators ==> l in old(levitators) || l in HitObjects(hits)
      ensures forall l :: l in HitObjects(hits) && l in levitators && l !in old(levitators) ==> l.LevitatedTowards(aim(l))
      ensures forall l :: l in old(levitators) ==> unchanged(l)
      ensures forall l :: l in HitObjects(hits) && l !in levitators ==> unchanged(l)
      ensures timeSinceLastGesture == old(timeSinceLastGesture)
      ensures nodYVelocity == old(nodYVelocity) && jerkHorizontalSpeed == old(jerkHorizontalSpeed)
      ensures disableGesturesDuration == old(disableGesturesDuration) && maxLevitations == old(maxLevitations)
      ensures hasHeadTracker == old(hasHeadTracker) && hasFaceTracker == old(hasFaceTracker)
      ensures hasCameraTracker == old(hasCameraTracker)
    {
      var i := 0;
      while i < |found|
        invariant 0 <= i <= |found|
        invariant Valid()
        invariant levitators == AddNew(old(levitators), found[..i])
        invariant forall l :: l in levitators ==> l in old(levitators) || l in HitObjects(hits)
        invariant forall l :: l in HitObjects(hits) && l in levitators && l !in old(levitators) ==> l.LevitatedTowards(aim(l))
        invariant forall l :: l in old(levitators) ==> unchanged(l)
        invariant forall l :: l in HitObjects(hits) && l !in levitators ==> unchanged(l)
        invariant timeSinceLastGesture == old(timeSinceLastGesture)
        invariant nodYVelocity == old(nodYVelocity) && jerkHorizontalSpeed == old(jerkHorizontalSpeed)
        invariant disableGesturesDuration == old(disableGesturesDuration) && maxLevitations == old(maxLevitations)
        invariant hasHeadTracker == old(hasHeadTracker) && hasFaceTracker == old(hasFaceTracker)
        invariant hasCameraTracker == old(hasCameraTracker)
      {
        var lev := found[i];
        assert found[..i + 1][..i] == found[..i];
        AddNewProperties(old(levitators), found[..i]);
        if lev !in levitators {
          assert lev in HitObjects(hits);
          assert lev !in old(levitators);
          var before := levitators;
          levitators := levitators + [lev];
          assert NoDuplicates(levitators) by {
            forall a, b | 0 <= a < b < |levitators|
              ensures levitators[a] != levitators[b]
            {
              if b == |before| {
                assert levitators[a] == before[a];
              }
            }
          }
          lev.Levitate(aim(lev));
        }
        i := i + 1;
      }
      assert found[..i] == found;
    }

    /** The throw's loop: throw every held object along dir, then clear the
        list. */
    method ThrowAll(dir: Vec3)
      requires Valid()
      modifies this, levitators
      ensures Valid() && levitators == []
      ensures forall l :: l in old(levitators) ==> l.ThrownAlong(dir)
      ensures timeSinceLastGesture == old(timeSinceLastGesture)
      ensures nodYVelocity == old(nodYVelocity) && jerkHorizontalSpeed == old(jerkHorizontalSpeed)
      ensures disableGesturesDuration == old(disableGesturesDuration) && maxLevitations == old(maxLevitations)
      ensures hasHeadTracker == old(hasHeadTracker) && hasFaceTracker == old(hasFaceTracker)
      ensures hasCameraTracker == old(hasCameraTracker)
    {
      var i := 0;
      while i < |levitators|
        invariant 0 <= i <= |levitators|
        invariant levitators == old(levitators)
        invariant forall j :: 0 <= j < i ==> levitators[j].ThrownAlong(dir)
        invariant forall j :: i <= j < |levitators| ==> unchanged(levitators[j])
        invariant unchanged(this)
      {
        levitators[i].Throw(dir);
        i := i + 1;
      }
      levitators := [];
    }
  }
}
