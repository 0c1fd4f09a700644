/** An object that walks a path node to node, turning round at either end
    (ping-pong traversal). */
module Following {
  import opened UnityMath
  import opened Wrappers
  import opened Paths

  /** What a `FixedUpdate` did. NullLinkError and ExtraMoveFailed are the
      null dereferences of the source: the first before anything changed,
      the second after Current and MovingBackwards were already updated. */
  datatype TickResult =
    | Idle
    | Moving
    | Advanced(pathEnded: bool)
    | NullLinkError
    | ExtraMoveFailed(pathEnded: bool)

  /** No node has speed modifier zero (the follower divides by it). */
  predicate SpeedModifiersNonZero(path: seq<PathNode>) {
    forall i :: 0 <= i < |path| ==> path[i].speedModifier != 0.0
  }

  class PathFollower {
    /** The nodes of the scene; the follower never changes them. */
    const path: seq<PathNode>
    var current: Option<nat>
    var movingBackwards: bool
    var baseSpeed: real
    var position: Vec3

    ghost predicate Valid()
      reads this
    {
      && LinksInRange(path)
      && SpeedModifiersNonZero(path)
      && (current.Some? ==> current.value < |path|)
    }

    /** The follower can always continue: it has no node, its node has no
        neighbour at all, or its node has a next node in the travel
        direction. */
    ghost predicate Heading()
      reads this
      requires Valid()
    {
      current.None? ||
      (path[current.value].next.None? && path[current.value].previous.None?) ||
      GetNextNode(path[current.value], movingBackwards).Some?
    }

    /** The inspector fields: the starting node, direction, speed and
        position. */
    constructor (nodes: seq<PathNode>, start: Option<nat>, backwards: bool, speed: real, pos: Vec3)
      requires LinksInRange(nodes) && SpeedModifiersNonZero(nodes)
      requires start.Some? ==> start.value < |nodes|
      ensures Valid()
      ensures path == nodes && current == start && movingBackwards == backwards
      ensures baseSpeed == speed && position == pos
    {
      path := nodes;
      current := start;
      movingBackwards := backwards;
      baseSpeed := speed;
      position := pos;
    }

    /** `Awake`: snap to the current node, if there is one. */
    method Awake()
      requires Valid()
      modifies this
      ensures Valid()
      ensures current == old(current) && movingBackwards == old(movingBackwards) && baseSpeed == old(baseSpeed)
      ensures position == if current.Some? then path[current.value].position else old(position)
    {
      if current.Some? {
        position := path[current.value].position;
      }
    }

    /** `FixedUpdate`: move towards the next node with a budget of
        `baseSpeed * fixedDeltaTime`. On reaching it, that node becomes the
        current one; if it has no node further on, the direction flips and
        the path end is reported; the movement left over (the budget in the
        new node's speed units, less the distance covered) is then walked
        from the reached node if positive. */
    method FixedUpdate(fixedDeltaTime: real, g: Geometry) returns (r: TickResult)
      requires Valid()
      modifies this
      ensures Valid()
      ensures baseSpeed == old(baseSpeed)
      ensures old(current).None? || (old(path[current.value].next).None? && old(path[current.value].previous).None?) ==>
                r == Idle && current == old(current) && movingBackwards == old(movingBackwards) && position == old(position)
      ensures r == Moving || r == NullLinkError ==>
                current == old(current) && movingBackwards == old(movingBackwards)
      ensures r != Idle ==>
                var c := old(current).value;
                var moveDist := old(baseSpeed) * fixedDeltaTime;
                var m := MoveTowardsNext(path, c, old(position), moveDist, old(movingBackwards), g);
                && (m.NullLink? <==> r == NullLinkError)
                && (m.NullLink? ==> position == old(position))
                && (m.Moved? <==> r == Moving)
                && (m.Moved? ==> position == m.newPos)
                && (m.Hit? ==>
                      var n := GetNextNode(path[c], old(movingBackwards)).value;
                      var ended := GetNextNode(path[n], old(movingBackwards)).None?;
                      var extra := moveDist / path[n].speedModifier - g.distance(old(position), m.newPos);
                      && current == Some(n)
                      && movingBackwards == (if ended then !old(movingBackwards) else old(movingBackwards))
                      && (r.Advanced? || r.ExtraMoveFailed?) && r.pathEnded == ended
                      && (extra <= 0.0 ==> r.Advanced? && position == old(position))
                      && (extra > 0.0 ==>
                            var m2 := MoveTowardsNext(path, n, m.newPos, extra, movingBackwards, g);
                            && (m2.NullLink? <==> r.ExtraMoveFailed?)
                            && (!m2.NullLink? ==> position == m2.newPos)
                            && (m2.NullLink? ==> position == old(position))))
      ensures Symmetric(path) && old(Heading()) ==> Heading() && !r.NullLinkError? && !r.ExtraMoveFailed?
    {
      if current.None? || (path[current.value].next.None? && path[current.value].previous.None?) {
        return Idle;
      }
      var c := current.value;
      var moveDist := baseSpeed * fixedDeltaTime;
      var m := MoveTowardsNext(path, c, position, moveDist, movingBackwards, g);
      match m {
        case NullLink =>
          r := NullLinkError;
        case Moved(p) =>
          position := p;
          r := Moving;
        case Hit(newPos) =>
          var n := GetNextNode(path[c], movingBackwards).value;
          current := Some(n);
          var ended := GetNextNode(path[n], movingBackwards).None?;
          if ended {
            movingBackwards := !movingBackwards;
          }
          if Symmetric(path) {
            StepBackReturns(path, c, old(movingBackwards));
          }
          var extra := moveDist / path[n].speedModifier - g.distance(position, newPos);
          r := Advanced(ended);
          if extra > 0.0 {
            var m2 := MoveTowardsNext(path, n, newPos, extra, movingBackwards, g);
            if m2.NullLink? {
              r := ExtraMoveFailed(ended);
            } else {
              position := m2.newPos;
            }
          }
      }
    }
  }

  /** Starting from a node with a successor in the travel direction, a
      follower on a symmetric path turns round exactly at the ends: after a
      tick that reaches a node, the direction is reversed precisely when
      that node is an end in the old direction, and the node it came from
      is then ahead. */
  lemma TurnsAtEnds(path: seq<PathNode>, c: nat, backwards: bool)
    requires LinksInRange(path) && Symmetric(path) && c < |path|
    requires GetNextNode(path[c], backwards).Some?
    ensures var n := GetNextNode(path[c], backwards).value;
            GetNextNode(path[n], backwards).None? ==> GetNextNode(path[n], !backwards) == Some(c)
  {
    StepBackReturns(path, c, backwards);
  }
}
