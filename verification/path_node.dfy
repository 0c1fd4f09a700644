/** A path as a doubly linked chain of nodes. The nodes of a scene are held
    in one sequence and each link is the index of its target, or None for a
    missing (null) link. */
module Paths {
  import opened UnityMath
  import opened Wrappers

  datatype MoveStyle = Line | ArcLeft | ArcRight

  datatype PathNode = PathNode(
    next: Option<nat>,
    previous: Option<nat>,
    styleToNext: MoveStyle,
    speedModifier: real,
    rotationAxis: Vec3,
    position: Vec3)

  /** Every link of every node names a node of the path. */
  predicate LinksInRange(path: seq<PathNode>) {
    forall i :: 0 <= i < |path| ==>
      (path[i].next.Some? ==> path[i].next.value < |path|) &&
      (path[i].previous.Some? ==> path[i].previous.value < |path|)
  }

  /** Next and Previous agree: a is b's Previous exactly when b is a's Next. */
  predicate Symmetric(path: seq<PathNode>)
    requires LinksInRange(path)
  {
    forall a :: 0 <= a < |path| ==>
      (path[a].next.Some? ==> path[path[a].next.value].previous == Some(a)) &&
      (path[a].previous.Some? ==> path[path[a].previous.value].next == Some(a))
  }

  /** `GetNextNode`: Previous when moving backwards, else Next. */
  function GetNextNode(node: PathNode, moveBackwards: bool): (r: Option<nat>)
    ensures r == node.next || r == node.previous
    ensures node.next != node.previous ==> (r == node.next <==> !moveBackwards)
  {
    if moveBackwards then node.previous else node.next
  }

  /** `GetPreviousNode`: Next when moving backwards, else Previous. The
      previous node in one direction is the next node in the other, and the
      two together are the node's two links. */
  function GetPreviousNode(node: PathNode, moveBackwards: bool): (r: Option<nat>)
    ensures r == GetNextNode(node, !moveBackwards)
    ensures {GetNextNode(node, moveBackwards), r} == {node.next, node.previous}
  {
    if moveBackwards then node.next else node.previous
  }

  /** On a symmetric path, stepping forward and then back in the same
      direction returns to the start. */
  lemma StepBackReturns(path: seq<PathNode>, i: nat, moveBackwards: bool)
    requires LinksInRange(path) && Symmetric(path) && i < |path|
    requires GetNextNode(path[i], moveBackwards).Some?
    ensures GetPreviousNode(path[GetNextNode(path[i], moveBackwards).value], moveBackwards) == Some(i)
  {
  }

  /** The node reached after n steps along the links of one direction, or
      None when a link runs out first. */
  function Walk(path: seq<PathNode>, i: nat, moveBackwards: bool, n: nat): (r: Option<nat>)
    requires LinksInRange(path) && i < |path|
    ensures r.Some? ==> r.value < |path|
    decreases n
  {
    if n == 0 then Some(i)
    else match GetNextNode(path[i], moveBackwards)
      case None => None
      case Some(j) => Walk(path, j, moveBackwards, n - 1)
  }

  /** `GetPathEnd`: follow the links of one direction to the first node with
      none. The source recursion only ends on an acyclic chain; here it takes
      at most `fuel` steps and gives None when the fuel runs out. */
  function GetPathEnd(path: seq<PathNode>, i: nat, moveBackwards: bool, fuel: nat): (r: Option<nat>)
    requires LinksInRange(path) && i < |path|
    ensures r.Some? ==> r.value < |path| && GetNextNode(path[r.value], moveBackwards).None?
    decreases fuel
  {
    if fuel == 0 then None
    else match GetNextNode(path[i], moveBackwards)
      case None => Some(i)
      case Some(j) => GetPathEnd(path, j, moveBackwards, fuel - 1)
  }

  /** `GetPathStart`, following its own recursion: Next when moving
      backwards, else Previous. */
  function GetPathStart(path: seq<PathNode>, i: nat, moveBackwards: bool, fuel: nat): (r: Option<nat>)
    requires LinksInRange(path) && i < |path|
    ensures r.Some? ==> r.value < |path| && GetPreviousNode(path[r.value], moveBackwards).None?
    decreases fuel
  {
    if fuel == 0 then None
    else match GetPreviousNode(path[i], moveBackwards)
      case None => Some(i)
      case Some(j) => GetPathStart(path, j, moveBackwards, fuel - 1)
  }

  /** The start of a path in one direction is its end in the other. */
  lemma {:induction false} PathStartIsOppositeEnd(path: seq<PathNode>, i: nat, moveBackwards: bool, fuel: nat)
    requires LinksInRange(path) && i < |path|
    ensures GetPathStart(path, i, moveBackwards, fuel) == GetPathEnd(path, i, !moveBackwards, fuel)
    decreases fuel
  {
    if fuel > 0 {
      match GetPreviousNode(path[i], moveBackwards)
      case None =>
      case Some(j) => PathStartIsOppositeEnd(path, j, moveBackwards, fuel - 1);
    }
  }

  /** When the chain from i reaches a node with no further link after n
      steps, `GetPathEnd` with more than n fuel returns that node. */
  lemma {:induction false} PathEndReached(path: seq<PathNode>, i: nat, moveBackwards: bool, n: nat, fuel: nat)
    requires LinksInRange(path) && i < |path|
    requires Walk(path, i, moveBackwards, n).Some?
    requires GetNextNode(path[Walk(path, i, moveBackwards, n).value], moveBackwards).None?
    requires n < fuel
    ensures GetPathEnd(path, i, moveBackwards, fuel) == Walk(path, i, moveBackwards, n)
    decreases n
  {
    if n > 0 {
      var j := GetNextNode(path[i], moveBackwards).value;
      PathEndReached(path, j, moveBackwards, n - 1, fuel - 1);
    }
  }

  /** Whatever `GetPathEnd` returns lies on the chain from i. */
  lemma {:induction false} PathEndOnChain(path: seq<PathNode>, i: nat, moveBackwards: bool, fuel: nat) returns (n: nat)
    requires LinksInRange(path) && i < |path|
    requires GetPathEnd(path, i, moveBackwards, fuel).Some?
    ensures n < fuel && Walk(path, i, moveBackwards, n) == GetPathEnd(path, i, moveBackwards, fuel)
    decreases fuel
  {
    match GetNextNode(path[i], moveBackwards)
    case None =>
      n := 0;
    case Some(j) =>
      var m := PathEndOnChain(path, j, moveBackwards, fuel - 1);
      n := m + 1;
  }

  /** A node linked to itself never reaches an end, whatever the fuel: the
      source recursion does not terminate there. */
  lemma {:induction false} SelfLoopHasNoEnd(path: seq<PathNode>, i: nat, moveBackwards: bool, fuel: nat)
    requires LinksInRange(path) && i < |path|
    requires GetNextNode(path[i], moveBackwards) == Some(i)
    ensures GetPathEnd(path, i, moveBackwards, fuel).None?
    decreases fuel
  {
    if fuel > 0 {
      SelfLoopHasNoEnd(path, i, moveBackwards, fuel - 1);
    }
  }

  /** The style for walking a leg backwards: arcs turn the other way. */
  function Mirror(style: MoveStyle): (r: MoveStyle)
    ensures r == Line <==> style == Line
    ensures style != Line ==> r != style
  {
    match style
    case Line => Line
    case ArcLeft => ArcRight
    case ArcRight => ArcLeft
  }

  /** Mirroring twice restores the style. */
  lemma MirrorInvolution(style: MoveStyle)
    ensures Mirror(Mirror(style)) == style
  {
  }

  /** The leg being walked: its destination node, the style, the speed
      modifier and the arc's rotation axis that apply. */
  datatype Leg = Leg(destination: nat, style: MoveStyle, speedModifier: real, rotationAxis: Vec3)

  /** The leg from node i: forwards it is this node's own leg to Next;
      backwards it is Previous's leg, walked mirrored, with Previous's speed
      modifier and rotation axis. */
  function LegFrom(path: seq<PathNode>, i: nat, reverse: bool): (leg: Option<Leg>)
    requires LinksInRange(path) && i < |path|
    ensures leg.Some? <==> GetNextNode(path[i], reverse).Some?
    ensures leg.Some? ==> leg.value.destination == GetNextNode(path[i], reverse).value < |path|
    ensures leg.Some? && reverse ==>
              var p := path[leg.value.destination];
              && leg.value.style == Mirror(p.styleToNext) && leg.value.speedModifier == p.speedModifier
              && leg.value.rotationAxis == p.rotationAxis
    ensures leg.Some? && !reverse ==>
              && leg.value.style == path[i].styleToNext && leg.value.speedModifier == path[i].speedModifier
              && leg.value.rotationAxis == path[i].rotationAxis
  {
    if reverse then
      match path[i].previous
      case None => None
      case Some(p) => Some(Leg(p, Mirror(path[p].styleToNext), path[p].speedModifier, path[p].rotationAxis))
    else
      match path[i].next
      case None => None
      case Some(n) => Some(Leg(n, path[i].styleToNext, path[i].speedModifier, path[i].rotationAxis))
  }

  /** Walking a leg backwards uses the same node's leg as walking it forwards
      from the other end, with the arc direction swapped and the same
      rotation axis. */
  lemma LegReversed(path: seq<PathNode>, i: nat)
    requires LinksInRange(path) && Symmetric(path) && i < |path|
    requires path[i].next.Some?
    ensures var back := LegFrom(path, path[i].next.value, true);
            var fwd := LegFrom(path, i, false);
            back.Some? && back.value.destination == i &&
            back.value.style == Mirror(fwd.value.style) && back.value.speedModifier == fwd.value.speedModifier &&
            back.value.rotationAxis == fwd.value.rotationAxis
  {
  }

  /** The geometry the move takes as given: Vector3.Distance, normalisation,
      and the arc step (from the leg's start and end, the current position,
      the scaled move distance, whether the arc is flipped and the
      normalised rotation axis). */
  datatype Geometry = Geometry(
    distance: (Vec3, Vec3) -> real,
    normalized: Vec3 -> Vec3,
    arcStep: (Vec3, Vec3, Vec3, real, bool, Vec3) -> Vec3)

  /** `MoveTowardsNext`'s result: the node was reached (the position snaps
      to it), the position moved without reaching it, or the link in the
      travel direction is null (the source dereferences it and throws). */
  datatype MoveResult =
    | Hit(newPos: Vec3)
    | Moved(newPos: Vec3)
    | NullLink

  /** The move distance scaled by the leg's speed modifier. */
  function ScaledMove(baseMoveDist: real, speedModifier: real): real {
    baseMoveDist * speedModifier
  }

  /** `MoveTowardsNext`: a Line leg snaps when the destination is within the
      scaled move distance (inclusive), an arc leg only when strictly within
      it; otherwise a Line moves straight at it and an arc takes an arc step. */
  function MoveTowardsNext(path: seq<PathNode>, i: nat, current: Vec3, baseMoveDist: real, reverse: bool, g: Geometry): (r: MoveResult)
    requires LinksInRange(path) && i < |path|
    ensures r.NullLink? <==> GetNextNode(path[i], reverse).None?
    ensures r.Hit? ==> r.newPos == path[GetNextNode(path[i], reverse).value].position
    ensures !r.NullLink? ==>
              var leg := LegFrom(path, i, reverse).value;
              var dest := path[leg.destination].position;
              var d := ScaledMove(baseMoveDist, leg.speedModifier);
              && (leg.style == Line ==> (r.Hit? <==> g.distance(current, dest) <= d))
              && (leg.style != Line ==> (r.Hit? <==> g.distance(dest, current) < d))
              && (leg.style == Line && r.Moved? ==> r.newPos == Add(current, Scale(d, g.normalized(Sub(dest, current)))))
              && (leg.style != Line && r.Moved? ==> r.newPos == g.arcStep(path[i].position, dest, current, d, leg.style == ArcRight, g.normalized(leg.rotationAxis)))
  {
    match LegFrom(path, i, reverse)
    case None => NullLink
    case Some(leg) =>
      var dest := path[leg.destination].position;
      var d := ScaledMove(baseMoveDist, leg.speedModifier);
      match leg.style
      case Line =>
        if g.distance(current, dest) <= d then Hit(dest)
        else Moved(Add(current, Scale(d, g.normalized(Sub(dest, current)))))
      case _ =>
        if g.distance(dest, current) < d then Hit(dest)
        else Moved(g.arcStep(path[i].position, dest, current, d, leg.style == ArcRight, g.normalized(leg.rotationAxis)))
  }

  /** At a distance exactly equal to the scaled move distance a Line leg
      snaps to its node and an arc leg does not. */
  lemma SnapBoundary(path: seq<PathNode>, i: nat, current: Vec3, baseMoveDist: real, reverse: bool, g: Geometry)
    requires LinksInRange(path) && i < |path|
    requires LegFrom(path, i, reverse).Some?
    requires var leg := LegFrom(path, i, reverse).value;
             var dest := path[leg.destination].position;
             g.distance(current, dest) == g.distance(dest, current) == ScaledMove(baseMoveDist, leg.speedModifier)
    ensures LegFrom(path, i, reverse).value.style == Line <==> MoveTowardsNext(path, i, current, baseMoveDist, reverse, g).Hit?
  {
  }
}
