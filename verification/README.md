# Ninja Discount Warehouse — a verified model of the gameplay core

Ninja Discount Warehouse is a virtual-reality game built on Unity and SteamVR.
The player stands in a warehouse. They nod to lift crates, barrels and fallen
ninjas, and jerk their head sideways to throw what they hold. This project
models the scripts that make up that loop, one Dafny module per script:

- **Kinematics** (`kinematics_tracker.dfy`) — the motion log. It is a
  300-slot ring buffer of per-tick samples: delta time, orientation,
  position, velocity and acceleration. It answers queries over "the last
  *d* seconds": the average velocity, the position change, the distance
  travelled and the past orientation.
- **Levitation** (`levitatable.dfy`) — the three-state object that can be
  Inert, Levitated or Thrown. A levitated object seeks a hover point, and a
  throw counts down to Inert.
- **Gestures** (`human_behavior.dfy`) — the player's gesture controller.
  It has a cooldown, the list of held objects, a nod that lifts and a jerk
  that throws.
- **Paths** and **Following** (`path_node.dfy`, `path_follower.dfy`) — the
  doubly linked path nodes and the follower that walks them. The follower
  turns round at either end.
- **Lerping** (`controlled_lerp.dfy`) — an input-driven value. Input
  accelerates it, and with no input it springs back to a default.
- **Fading** (`fade_to_game_scene.dfy`) — the full-screen fade that loads
  the game scene and then fades back in.
- **Tutorial** (`tutorial_controller.dfy`) — the four-step tutorial, played
  once on each side of the room.
- **Dying** (`dead_ninja.dfy`) — a fallen ninja's body. Its kill timer is
  armed near the player and disarmed when the body is lifted.
- **SteamVRUtils** (`steamvr_utils.dfy`) — the engine-independent SteamVR
  helpers:
  - the event registry, including delegate subtraction;
  - scalar and vector interpolation;
  - the change of handedness between OpenVR poses and Unity matrices;
  - the distortion-mesh tessellation.
- **UnityMath** and **Wrappers** — the engine's vector types and scalar
  helpers over exact reals, and an `Option` type.

Each script becomes one of two things:

- A component whose fields change from frame to frame becomes a `class`.
  Its methods say exactly what their new state is, in terms of pure
  functions: `CountdownStep`, `Step`, `FadeStep`, `KillDecision`,
  `MoveTowardsNext` and `Subtract`.
- The lemmas about those functions state what the design promises.
  Examples:
  - the log's slot arithmetic is a bijection;
  - counting more time never counts fewer entries;
  - a thrown object becomes Inert after a computed number of ticks;
  - a path's start in one direction is its end in the other;
  - removing a listener undoes adding it;
  - the distortion mesh's triangles index every cell exactly where the
    row-major layout says.

Engine calls become data:

- A physics engine call becomes a request the tick returns, such as
  `MovePosition` or `AddAcceleration`.
- A raycast or `Random.value` becomes a parameter.
- An event invocation becomes the list of handlers it calls, in order.

## Model

| member | source | states |
|---|---|---|
| `UnityMath.Sign` | Assets/Scripts/Input/ControlledLerp.cs:89-94 | Mathf.Sign is ±1 and is 1 exactly for non-negative input; zero counts as positive |
| `UnityMath.Clamp` | Assets/Scripts/KinematicsTracker.cs:101-104 | Mathf.Clamp lies within the bounds when they are ordered, keeps an in-range value, and picks the violated bound otherwise |
| `Kinematics.LogIndex` | Assets/Scripts/KinematicsTracker.cs:90-97 | the slot of the k-th newest entry always lies inside the 300-slot buffer |
| `Kinematics.Recent` | Assets/Scripts/KinematicsTracker.cs:109-124 | reading the buffer newest-first is a rearrangement of all 300 slots: entry k holds the slot LogIndex gives for k, and every slot's sample appears at entry (counter - 1 - slot) mod 300 |
| `Kinematics.CountFrom` | Assets/Scripts/KinematicsTracker.cs:109-124 | the counting loop stops at an empty slot or once the accumulated time exceeds the duration, and every counted entry holds a sample |
| `Kinematics.FirstReaching` | Assets/Scripts/KinematicsTracker.cs:151-172 | the first entry whose accumulated time reaches t: every earlier prefix is below t, and this one reaches it unless no entry does |
| `Kinematics.WrapNegative` | Assets/Scripts/KinematicsTracker.cs:17-21 | adding the buffer size until non-negative keeps the value modulo 300, leaves non-negative values alone, and brings negative ones into [0, 300) |
| `Kinematics.KinematicsTracker.Awake` | Assets/Scripts/KinematicsTracker.cs:228-251 | a new tracker has its cursor and covered duration at zero, every delta-time slot empty, forward and right slots at +z and +x, and the position, velocity and acceleration slots at zero |
| `Kinematics.KinematicsTracker.GetLogIndex` | Assets/Scripts/KinematicsTracker.cs:90-97 | an entry number of 300 or more is the out-of-range error, and any other is mapped to its slot |
| `Kinematics.KinematicsTracker.ClampDuration` | Assets/Scripts/KinematicsTracker.cs:101-104 | the queried duration is clamped into [0, covered duration] and kept when already inside |
| `Kinematics.KinematicsTracker.NewestMinus` | Assets/Scripts/KinematicsTracker.cs:111-120 | the queries' own index arithmetic, newest slot minus i wrapped, is the slot of entry i |
| `Kinematics.KinematicsTracker.GetNumbLogs` | Assets/Scripts/KinematicsTracker.cs:109-124 | the loop returns the entry count that covers the duration; it is at most 300, and every counted slot holds a sample |
| `Kinematics.KinematicsTracker.GetAverageDeltaTime` | Assets/Scripts/KinematicsTracker.cs:129-145 | before the first sample it is the tiny constant; with no entry counted it is the newest delta time; otherwise it is the mean of the counted ones |
| `Kinematics.KinematicsTracker.GetForwardVectorAtTime` | Assets/Scripts/KinematicsTracker.cs:151-172 | the orientation stored at the first entry reaching the clamped time, or at the oldest slot when none does |
| `Kinematics.KinematicsTracker.GetAverage` | Assets/Scripts/KinematicsTracker.cs:177-191 | the mean of the counted newest entries of the buffer, or the newest entry when none is counted |
| `Kinematics.KinematicsTracker.GetAverageVelocity` | Assets/Scripts/KinematicsTracker.cs:192 | the same average taken over the velocity log |
| `Kinematics.KinematicsTracker.GetAverageAcceleration` | Assets/Scripts/KinematicsTracker.cs:193 | the same average taken over the acceleration log |
| `Kinematics.KinematicsTracker.GetDeltaPos` | Assets/Scripts/KinematicsTracker.cs:198-205 | newest position minus the oldest counted position, or zero when nothing is counted |
| `Kinematics.KinematicsTracker.GetAmountTraveled` | Assets/Scripts/KinematicsTracker.cs:209-225 | the sum of component-wise absolute velocity times delta time over the counted entries |
| `Kinematics.KinematicsTracker.WriteSample` | Assets/Scripts/KinematicsTracker.cs:262-280 | each of the five vector logs changes only at the written slot |
| `Kinematics.KinematicsTracker.FixedUpdate` | Assets/Scripts/KinematicsTracker.cs:253-283 | one sample is written at the cursor and the cursor advances mod 300, so the new delta time becomes entry 0 and the others shift by one; the covered duration drops the overwritten entry and adds the new one; the filled count grows up to 300; the tracker stays consistent |
| `Kinematics.LogIndexStep` | Assets/Scripts/KinematicsTracker.cs:111-120 | entry i's slot is the wrapped newest slot minus i |
| `Kinematics.LogIndexInjective` | Assets/Scripts/KinematicsTracker.cs:90-97 | distinct entry numbers below 300 never share a slot |
| `Kinematics.LogIndexOnto` | Assets/Scripts/KinematicsTracker.cs:90-97 | every slot holds some entry number below 300, namely the one the same slot arithmetic gives for it (the map is its own inverse), so the ring is read completely |
| `Kinematics.LogIndexAfterAdvance` | Assets/Scripts/KinematicsTracker.cs:253-283 | after the cursor advances, entry k is the former entry k - 1 |
| `Kinematics.RecentAfterWrite` | Assets/Scripts/KinematicsTracker.cs:253-283 | writing at the cursor and advancing puts the new value first and shifts the older entries down by one, dropping the oldest |
| `Kinematics.LogStateAfterWrite` | Assets/Scripts/KinematicsTracker.cs:253-283 | a write with a positive delta time keeps the bookkeeping consistent: cursor in range, samples newest first, covered duration equal to the sum of logged delta times |
| `Kinematics.FilledAfterWrite` | Assets/Scripts/KinematicsTracker.cs:253-283 | filled entries stay a newest-first prefix after a write |
| `Kinematics.PositiveSumUpdate` | Assets/Scripts/KinematicsTracker.cs:258-260 | overwriting one slot changes the covered duration by the new entry minus the overwritten one |
| `Kinematics.PositiveSumOfSentinels` | Assets/Scripts/KinematicsTracker.cs:228-251 | an all-empty log covers zero time |
| `Kinematics.PositiveSumNonNegative` | Assets/Scripts/KinematicsTracker.cs:101-104 | the covered duration is never negative, so the clamp interval is never empty |
| `Kinematics.FirstReachingAt` | Assets/Scripts/KinematicsTracker.cs:151-172 | the orientation search finds exactly the first entry whose prefix reaches the time |
| `Kinematics.FirstReachingFrom` | Assets/Scripts/KinematicsTracker.cs:151-172 | starting the search later, but not past that entry, finds the same entry |
| `Kinematics.CountFromMonotonic` | Assets/Scripts/KinematicsTracker.cs:109-124 | a longer duration never counts fewer entries (any start point) |
| `Kinematics.NumbLogsMonotonic` | Assets/Scripts/KinematicsTracker.cs:109-124 | a longer duration never counts fewer entries |
| `Kinematics.NumbLogsAtMostFilled` | Assets/Scripts/KinematicsTracker.cs:109-124 | never more entries are counted than hold samples |
| `Kinematics.CountFromAtMostFilled` | Assets/Scripts/KinematicsTracker.cs:109-124 | the count from any start within the filled prefix stays within it |
| `Kinematics.NumbLogsOfZero` | Assets/Scripts/KinematicsTracker.cs:109-124 | a zero duration counts no entry before the first sample and exactly the newest one after it |
| `Kinematics.VecSumOfConstant` | Assets/Scripts/KinematicsTracker.cs:177-191 | the sum of n equal vectors is n times the vector |
| `Kinematics.AverageOfConstant` | Assets/Scripts/KinematicsTracker.cs:177-191 | averaging entries that all equal v gives v |
| `Levitation.HorizontalMask` | Assets/Scripts/Levitatable.cs:12 | the ground-plane part of a vector: no height, what it drops is purely vertical, and it is never longer than the vector |
| `Levitation.VerticalMask` | Assets/Scripts/Levitatable.cs:14 | the vertical part of a vector: orthogonal to the horizontal part, and the two add back to the vector |
| `Levitation.MasksPartition` | Assets/Scripts/Levitatable.cs:12-14 | each mask is idempotent and removes the other's part entirely |
| `Levitation.GetTargetPosition` | Assets/Scripts/Levitatable.cs:42-47 | the hover point lies horizontally along the target direction at the horizontal distance and at the vertical distance above the player |
| `Levitation.HoverRequestsSeparateAxes` | Assets/Scripts/Levitatable.cs:90-112 | a Levitated tick issues the horizontal seek and then the vertical one; each moves the body only along its own axes, and only when that part of the way to the target is non-zero |
| `Levitation.MaskedStep` | Assets/Scripts/Levitatable.cs:90-112 | a step along one masked part leaves the other part of the position unchanged |
| `Levitation.CountdownStep` | Assets/Scripts/Levitatable.cs:115-130 | no tick enters Thrown and Inert or Levitated are kept; while Thrown the countdown drops by dt and stays positive, strictly decreasing for dt > 0; Thrown ends exactly when the countdown is at most dt, landing in Inert with the countdown reset |
| `Levitation.ThrowReturnsToInert` | Assets/Scripts/Levitatable.cs:115-130 | a throw stays Thrown for exactly the ticks before its duration is used up, with the countdown at d - k*dt, and is Inert after the n-th |
| `Levitation.TicksUntilInert` | Assets/Scripts/Levitatable.cs:115-130 | for every duration and positive tick such an n exists, so every throw ends |
| `Levitation.Levitatable.constructor` | Assets/Scripts/Levitatable.cs:31-63 | the field initialisers: Inert, the hover settings with target direction +x, countdown reset, throw direction +x, gravity on, the optional renderer |
| `Levitation.Levitatable.Awake` | Assets/Scripts/Levitatable.cs:69-77 | engine gravity off, state Inert, the renderer hidden, the rest kept |
| `Levitation.Levitatable.FixedUpdate` | Assets/Scripts/Levitatable.cs:79-135 | Inert asks for the configured gravity; Levitated asks for the two hover seeks; Thrown asks for acceleration along its direction and counts down by CountdownStep; settings are kept |
| `Levitation.Levitatable.Levitate` | Assets/Scripts/Levitatable.cs:141-156 | from any state: Levitated towards the given direction, renderer shown, all else kept |
| `Levitation.Levitatable.Throw` | Assets/Scripts/Levitatable.cs:160-170 | from any state: Thrown along dir with the full countdown, renderer hidden, all else kept |
| `Gestures.SweepLength` | Assets/Scripts/Input/HumanBehavior.cs:54-60 | the sweep examines the hits up to the end of the list or the levitation cap, whichever is first; a negative cap examines none |
| `Gestures.AddNewProperties` | Assets/Scripts/Input/HumanBehavior.cs:54-60 | offering items keeps the old list as a prefix and keeps it duplicate-free; the result holds exactly the old entries and the offered items |
| `Gestures.AddNewKeepsPresent` | Assets/Scripts/Input/HumanBehavior.cs:54-60 | items already held are not appended again |
| `Gestures.HitValues` | Assets/Scripts/Input/HumanBehavior.cs:54-60 | the Levitatable components of the first n hits, in hit order |
| `Gestures.HumanBehavior.constructor` | Assets/Scripts/Input/HumanBehavior.cs:14-23 | the field initialisers: nod speed -3.5, jerk speed 8, cooldown 0.25, cap 8, timer 9999, nothing held |
| `Gestures.HumanBehavior.IsLevitating` | Assets/Scripts/Input/HumanBehavior.cs:30 | true exactly when some object is held |
| `Gestures.HumanBehavior.Awake` | Assets/Scripts/Input/HumanBehavior.cs:67-84 | a second instance throws; then each missing tracker throws in declaration order; only with all three set is the controller ready with an empty list |
| `Gestures.HumanBehavior.FindLevitators` | Assets/Scripts/Input/HumanBehavior.cs:33-64 | with no blocker ahead nothing is lifted; otherwise it fails at the first hit without a Levitatable within the sweep, or returns the sweep's hits in order |
| `Gestures.HumanBehavior.Update` | Assets/Scripts/Input/HumanBehavior.cs:86-113 | the timer grows by dt; after the cooldown a nod lifts the found objects and resets the timer, failing exactly at the first swept hit without a Levitatable; otherwise a jerk or the throw input throws every held object (even none) and clears the list, leaving the timer running; a hit object that is neither held before nor after is untouched; the settings are kept |
| `Gestures.HumanBehavior.LiftAll` | Assets/Scripts/Input/HumanBehavior.cs:54-60 | each found object not yet held is appended and levitated towards its aim; held objects are untouched |
| `Gestures.HumanBehavior.ThrowAll` | Assets/Scripts/Input/HumanBehavior.cs:104-111 | every held object is thrown along the jerk direction and the list is cleared |
| `Paths.GetNextNode` | Assets/Scripts/PathNode.cs:49 | the next node is one of the node's two links, and Next exactly when moving forwards whenever the links differ |
| `Paths.GetPreviousNode` | Assets/Scripts/PathNode.cs:54 | the previous node in one direction is the next node in the other, and together the two are the node's two links |
| `Paths.StepBackReturns` | Assets/Scripts/PathNode.cs:49-54 | on a symmetric path, stepping forward then back in the same direction returns to the start |
| `Paths.Walk` | Assets/Scripts/PathNode.cs:59-63 | n steps along one direction's links stay on the path |
| `Paths.GetPathEnd` | Assets/Scripts/PathNode.cs:59-63 | a found end is a node of the path with no link onward in that direction |
| `Paths.PathStartIsOppositeEnd` | Assets/Scripts/PathNode.cs:59-72 | the start of a path in one direction is its end in the other |
| `Paths.GetPathStart` | Assets/Scripts/PathNode.cs:68-72 | a found start is a node of the path with no link backwards in that direction |
| `Paths.PathEndReached` | Assets/Scripts/PathNode.cs:59-63 | when the chain reaches a node with no onward link, that node is the end found |
| `Paths.PathEndOnChain` | Assets/Scripts/PathNode.cs:59-63 | whatever end is found lies on the chain from the start node |
| `Paths.SelfLoopHasNoEnd` | Assets/Scripts/PathNode.cs:59-63 | a node linked to itself never reaches an end, whatever the fuel |
| `Paths.Mirror` | Assets/Scripts/PathNode.cs:185-194 | walking a leg backwards keeps a Line a Line and turns an arc the other way |
| `Paths.MirrorInvolution` | Assets/Scripts/PathNode.cs:185-211 | mirroring twice restores the style, so a leg walked back and forth keeps its direction of turn |
| `Paths.LegFrom` | Assets/Scripts/PathNode.cs:185-211 | a leg exists exactly when there is a next node; forwards it uses the node's own style, speed and rotation axis, backwards the next node's, with the style mirrored |
| `Paths.LegReversed` | Assets/Scripts/PathNode.cs:185-211 | on a symmetric path the backward leg from a node's successor is that node's leg mirrored, with the same speed and rotation axis |
| `Paths.MoveTowardsNext` | Assets/Scripts/PathNode.cs:174-268 | no next node is the null-link result; a hit lands exactly on the next node; otherwise the position moves by the scaled distance along the leg's line, or along its arc about the leg's normalised rotation axis |
| `Paths.SnapBoundary` | Assets/Scripts/PathNode.cs:217-232 | at exactly the move distance a Line leg snaps onto the node while an Arc does not |
| `Following.PathFollower.constructor` | Assets/Scripts/PathFollower.cs:12-15 | the inspector fields: start node, direction, speed and position |
| `Following.PathFollower.Awake` | Assets/Scripts/PathFollower.cs:29-35 | snap to the current node, if there is one |
| `Following.PathFollower.FixedUpdate` | Assets/Scripts/PathFollower.cs:37-69 | move with the speed-times-dt budget; on reaching a node it becomes current, the direction flips at an end, and the leftover is walked from there; on a symmetric path a follower that can continue always can, and no null-link error occurs |
| `Following.TurnsAtEnds` | Assets/Scripts/PathFollower.cs:37-69 | when the reached node is an end, the node the follower came from is ahead after the turn |
| `Lerping.Step` | Assets/Scripts/Input/ControlledLerp.cs:78-110 | the acceleration is the scaled input, or the pull home when there is none; the value either stays, moves by dt times the new velocity, or snaps to the default; out of range the velocity is zero or points home; input pushing away from the default never takes an in-range value out of range; with no input the value ends on the default at rest or at least the snap distance from it |
| `Lerping.RestSnapsToDefault` | Assets/Scripts/Input/ControlledLerp.cs:105-109 | with no input, a value ending within the snap distance is put on the default at rest |
| `Lerping.DefaultIsAtRest` | Assets/Scripts/Input/ControlledLerp.cs:78-110 | at the default, at rest, with no input and a positive snap distance, nothing moves |
| `Lerping.RestCanOvershootMaximum` | Assets/Scripts/Input/ControlledLerp.cs:97-102 | because Mathf.Sign(0) is 1, an idle value at the maximum with leftover velocity steps past it |
| `Lerping.ControlledLerp.constructor` | Assets/Scripts/Input/ControlledLerp.cs:57-73 | a missing default becomes the midpoint; the value starts at the default at rest |
| `Lerping.ControlledLerp.Update` | Assets/Scripts/Input/ControlledLerp.cs:78-110 | the field-by-field rewrite equals one Step and keeps the settings |
| `Fading.FadeStep` | Assets/Scripts/Tutorial/FadeToGameScene.cs:33-55 | the fade value stays strictly between 0 and 1 and at most one event is raised |
| `Fading.FadeStepEvents` | Assets/Scripts/Tutorial/FadeToGameScene.cs:38-49 | FadedOut exactly when the value reaches 1, reversing the speed; FadedIn exactly when it reaches 0, stopping; otherwise it moves by speed times dt |
| `Fading.StillFadeRests` | Assets/Scripts/Tutorial/FadeToGameScene.cs:33-55 | at speed zero the value stays and nothing is raised |
| `Fading.FadedInThenRests` | Assets/Scripts/Tutorial/FadeToGameScene.cs:44-49 | after the fade in the fader is at rest |
| `Fading.Invoked` | Assets/Scripts/Tutorial/FadeToGameScene.cs:38-49 | no event invokes nothing, FadedOut invokes OnFadedOut's handlers and FadedIn OnFadedIn's, and only subscribed handlers are ever invoked |
| `Fading.FadeToGameScene.constructor` | Assets/Scripts/Tutorial/FadeToGameScene.cs:9-19 | no fade and no subscribers |
| `Fading.FadeToGameScene.Awake` | Assets/Scripts/Tutorial/FadeToGameScene.cs:25-32 | speed zero, value just above zero, subscribers kept |
| `Fading.FadeToGameScene.Update` | Assets/Scripts/Tutorial/FadeToGameScene.cs:33-55 | the new state is FadeStep's and the handlers of its event are invoked in order |
| `Fading.FadeToGameScene.StartFade` | Assets/Scripts/Tutorial/FadeToGameScene.cs:57-61 | fade at the given speed from just above zero |
| `Fading.FadeToGameScene.SubscribeFadedOut` | Assets/Scripts/Tutorial/FadeToGameScene.cs:15 | the handler is appended to OnFadedOut only |
| `Fading.FadeToGameScene.SubscribeFadedIn` | Assets/Scripts/Tutorial/FadeToGameScene.cs:19 | the handler is appended to OnFadedIn only |
| `Tutorial.Succ` | Assets/Scripts/Tutorial/TutorialController.cs:112-169 | the tutorial order: no step leads to itself or back to the first step |
| `Tutorial.GazeIsSymmetric` | Assets/Scripts/Tutorial/TutorialController.cs:127 | the gaze test passes for looking straight away as well as straight at the barrel, and fails at right angles |
| `Tutorial.TutorialController.constructor` | Assets/Scripts/Tutorial/TutorialController.cs:22-31 | the scene as loaded: all prompts active, first step, Left, no side completed |
| `Tutorial.TutorialController.ChangeState` | Assets/Scripts/Tutorial/TutorialController.cs:35-75 | exactly the new step's prompt shows in the current container, and it becomes the active child |
| `Tutorial.TutorialController.ChangeSide` | Assets/Scripts/Tutorial/TutorialController.cs:76-101 | only the new side's container is active, restarting at the first step |
| `Tutorial.TutorialController.Awake` | Assets/Scripts/Tutorial/TutorialController.cs:104-109 | start in the Left container at the first step with one prompt shown |
| `Tutorial.TutorialController.Update` | Assets/Scripts/Tutorial/TutorialController.cs:112-169 | each step advances to its successor exactly when its condition holds; the throw step, once nothing is held, completes a side: the first switches to Right at the first step, the second (and only the second) ends the tutorial by starting the fader, subscribing the scene load and the fader's destruction, and disabling the tutorial; the prompts change only in the active container, or in Right's when switching to it, and a finished tutorial keeps its step |
| `Dying.KillDecision` | Assets/Scripts/DeadNinja.cs:40-53 | disarm exactly when armed and lifted; arm exactly when unarmed, not lifted, near and slow; never both |
| `Dying.LiftedBodyEndsUnarmed` | Assets/Scripts/DeadNinja.cs:40-53 | a body that stays lifted is unarmed after one update and stays so |
| `Dying.DeadNinja.constructor` | Assets/Scripts/DeadNinja.cs:8-13 | the field initialisers and no kill timer |
| `Dying.DeadNinja.AttachKillComponent` | Assets/Scripts/DeadNinja.cs:20-25 | the body will die soon, after the death wait time |
| `Dying.DeadNinja.Awake` | Assets/Scripts/DeadNinja.cs:27-38 | the kill is armed exactly when the random draw exceeds the insta-death chance |
| `Dying.DeadNinja.MayArm` | Assets/Scripts/DeadNinja.cs:47-49 | a zero kill distance or maximum speed never arms; a body at rest at the player's position may be armed exactly when both are non-zero |
| `Dying.DeadNinja.Update` | Assets/Scripts/DeadNinja.cs:40-53 | the field change follows KillDecision; a lifted body ends unarmed; a timer is attached exactly while armed |
| `SteamVRUtils.Subtract` | Assets/SteamVR/Scripts/SteamVR_Utils.cs:29-36 | delegate subtraction shortens the chain by one when the handler is in it, and leaves a chain without it unchanged |
| `SteamVRUtils.LastIndexOf` | Assets/SteamVR/Scripts/SteamVR_Utils.cs:29-36 | the index of the last occurrence of a handler, or -1 when absent |
| `SteamVRUtils.SubtractRemovesLast` | Assets/SteamVR/Scripts/SteamVR_Utils.cs:29-36 | delegate subtraction removes exactly the last occurrence and keeps the order of the rest |
| `SteamVRUtils.SubtractCounts` | Assets/SteamVR/Scripts/SteamVR_Utils.cs:29-36 | subtraction takes away one copy of the handler when there is one, and none otherwise |
| `SteamVRUtils.ListenThenRemove` | Assets/SteamVR/Scripts/SteamVR_Utils.cs:16-36 | adding a listener and removing it gives back the chain |
| `SteamVRUtils.EventRegistry.constructor` | Assets/SteamVR/Scripts/SteamVR_Utils.cs:47 | no listeners |
| `SteamVRUtils.EventRegistry.Listen` | Assets/SteamVR/Scripts/SteamVR_Utils.cs:16-27 | the handler is appended to the message's chain, which is created if absent; other messages are kept |
| `SteamVRUtils.EventRegistry.Remove` | Assets/SteamVR/Scripts/SteamVR_Utils.cs:29-36 | the message's chain loses the handler by delegate subtraction; other messages are kept |
| `SteamVRUtils.EventRegistry.Send` | Assets/SteamVR/Scripts/SteamVR_Utils.cs:38-45 | the message's handlers are invoked in order, none for an unknown message |
| `SteamVRUtils.Lerp` | Assets/SteamVR/Scripts/SteamVR_Utils.cs:90-98 | t = 0 gives A and t = 1 gives B (t is not clamped) |
| `SteamVRUtils.LerpVec` | Assets/SteamVR/Scripts/SteamVR_Utils.cs:82-88 | the same, on vectors |
| `SteamVRUtils.InverseLerp` | Assets/SteamVR/Scripts/SteamVR_Utils.cs:105-113 | defined exactly when A ≠ B, and then Lerp at the answer gives back result |
| `SteamVRUtils.InverseLerpOfLerp` | Assets/SteamVR/Scripts/SteamVR_Utils.cs:90-113 | the scalar inverse undoes Lerp when the end points differ |
| `SteamVRUtils.LerpBetween` | Assets/SteamVR/Scripts/SteamVR_Utils.cs:90-98 | for t in [0, 1], Lerp stays between its end points |
| `SteamVRUtils.InverseLerpVec` | Assets/SteamVR/Scripts/SteamVR_Utils.cs:100-103 | unlike the scalar version it never fails: equal end points give 0, result = A gives 0, and result = B gives the squared distance between the end points rather than 1 |
| `SteamVRUtils.InverseLerpVecOfLerp` | Assets/SteamVR/Scripts/SteamVR_Utils.cs:100-103 | the vector inverse of a vector Lerp is t times the squared distance between the end points |
| `SteamVRUtils.InverseLerpVecNotNormalised` | Assets/SteamVR/Scripts/SteamVR_Utils.cs:100-103 | so it is not t in general: two points two units apart give 4 for t = 1 |
| `SteamVRUtils.FromPose34` | Assets/SteamVR/Scripts/SteamVR_Utils.cs:184-206 | the 3x4 conversion negates exactly the entries that pair the z axis with another axis and adds the row 0 0 0 1 |
| `SteamVRUtils.FromPose44` | Assets/SteamVR/Scripts/SteamVR_Utils.cs:208-234 | the 4x4 conversion negates exactly the entries that pair the z axis with another axis |
| `SteamVRUtils.GetPosition` | Assets/SteamVR/Scripts/SteamVR_Utils.cs:131-138 | the translation column, which is where the matrix's affine transform takes the origin |
| `SteamVRUtils.HandednessChangeInvolution` | Assets/SteamVR/Scripts/SteamVR_Utils.cs:208-234 | converting twice gives back the OpenVR matrix |
| `SteamVRUtils.RigidTransformPosition34` | Assets/SteamVR/Scripts/SteamVR_Utils.cs:184-206 | the position read through GetPosition is the pose's translation with z negated |
| `SteamVRUtils.RigidTransformPosition44` | Assets/SteamVR/Scripts/SteamVR_Utils.cs:208-234 | the same for a 4x4 matrix, agreeing with the 3x4 case on its first three rows |
| `SteamVRUtils.QuadSharesDiagonal` | Assets/SteamVR/Scripts/SteamVR_Utils.cs:348-361 | each cell's two triangles share its diagonal and use its four corners |
| `SteamVRUtils.RowQuadsLength` | Assets/SteamVR/Scripts/SteamVR_Utils.cs:348-361 | six entries per cell of a row |
| `SteamVRUtils.GridQuadsLength` | Assets/SteamVR/Scripts/SteamVR_Utils.cs:326-329 | the triangle count is 2*3*(resU-1)*(resV-1) entries, as the array is sized |
| `SteamVRUtils.VertexIndexInRange` | Assets/SteamVR/Scripts/SteamVR_Utils.cs:341-342 | a grid point's index lies below resU*resV |
| `SteamVRUtils.VertexIndexOrder` | Assets/SteamVR/Scripts/SteamVR_Utils.cs:341-342 | indices follow row-major order |
| `SteamVRUtils.VertexIndexBijective` | Assets/SteamVR/Scripts/SteamVR_Utils.cs:341-342 | the index is a bijection from the grid points onto the vertex slots |
| `SteamVRUtils.GridQuadsInRange` | Assets/SteamVR/Scripts/SteamVR_Utils.cs:348-361 | every triangle entry indexes a vertex |
| `SteamVRUtils.RowQuadsInRange` | Assets/SteamVR/Scripts/SteamVR_Utils.cs:348-361 | every entry of a row's cells indexes a vertex |
| `SteamVRUtils.RowQuadsAt` | Assets/SteamVR/Scripts/SteamVR_Utils.cs:348-361 | the j-th cell of a row sits at entries 6(j-1) to 6j |
| `SteamVRUtils.GridQuadsAt` | Assets/SteamVR/Scripts/SteamVR_Utils.cs:331-364 | the cell at (i, j) sits at its row-major position in the triangle array |
| `SteamVRUtils.MeshVertices` | Assets/SteamVR/Scripts/SteamVR_Utils.cs:326-342 | the expected vertex array has one slot per grid point |
| `SteamVRUtils.SlotsToGridPoints` | Assets/SteamVR/Scripts/SteamVR_Utils.cs:331-346 | every grid point's slot holds the point that lerps x from left to right and y from top to bottom |
| `SteamVRUtils.WriteVertex` | Assets/SteamVR/Scripts/SteamVR_Utils.cs:337-342 | the grid point's vertex lands in its row-major slot, so the filled prefix of the vertex array grows by one and still matches the expected grid |
| `SteamVRUtils.WriteQuad` | Assets/SteamVR/Scripts/SteamVR_Utils.cs:348-361 | the six writes append the cell's two triangles and advance iTri by six |
| `SteamVRUtils.TessellateRow` | Assets/SteamVR/Scripts/SteamVR_Utils.cs:336-363 | one row fills its vertex slots and appends its cells |
| `SteamVRUtils.CreateDistortMesh` | Assets/SteamVR/Scripts/SteamVR_Utils.cs:318-373 | the vertex array is the grid in row-major order and the triangle array holds every cell's two triangles in row-major order, sized 2*3*(resU-1)*(resV-1) |

## Left out

- Rendering, audio, `OnGUI`, gizmos, `DontDestroyOnLoad` and scene
  loading are not modelled. Loading the scene and destroying the fader
  appear only as the handlers the fade events invoke.
- Raycasts, `Random.value`, the clock and the tracked device poses become
  method parameters. Examples are the gesture sweep's hits, the blocker
  test, the insta-death draw and the path geometry.
- Floats are exact reals. Float rounding, NaN and infinity are not
  modelled. `ControlledLerp`'s NaN default becomes an absent `Option`.
  `InverseLerp`'s `None` stands for the non-finite quotient when A == B.
- The physics engine is not modelled. `Rigidbody.MovePosition`, `AddForce`
  and `AddTorque` become requests a tick returns. The random torque
  impulse and the material swap of `Levitate` are left out.
- `Levitation.Levitatable.Levitate` takes the horizontal direction from
  the player as a parameter. The source normalises the player-to-object
  vector itself, and vector normalisation is left out.
- `HorizontalMaskNorm` and `VerticalMaskNorm` (Levitatable.cs:13,15) are
  declared but never called in the source, so they are not modelled.
- `Gestures.HumanBehavior`: in the source `Levitators` is null until an
  `Awake` succeeds (HumanBehavior.cs:29,83), so `IsLevitating` or `Update`
  after a failed `Awake` throws. The model starts with an empty list.
- `Paths.PathNode`: the rotation axis has no default. The inspector default
  (0, 1, 0) is not part of the datatype. Normalising the axis and turning
  about it are the geometry's `normalized` and `arcStep` parameters.
- `Gestures.HumanBehavior.Update` takes the averaged head and face
  velocities as inputs instead of querying the trackers.
- `Paths.GetPathEnd` carries a fuel bound. The source recurses without one
  and does not terminate on a cyclic path; `SelfLoopHasNoEnd` states the
  cyclic case.
- `Following.PathFollower.FixedUpdate` divides by a node's speed modifier.
  The model requires every modifier to be non-zero, where the source would
  produce an infinity.
- `Kinematics.KinematicsTracker.FixedUpdate` requires a positive delta
  time. The engine's fixed step always is positive.
- `Kinematics.KinematicsTracker.GetNumbLogs`, `GetLogIndex` and
  `NewestMinus` require the cursor to be in [0, 300). This holds in every
  reachable state.
- SteamVR: some members are not modelled.
  - `Slerp`, the rotation and scale parts of `RigidTransform` and its
    operators, `Inverse`, `TransformPoint` and `Interpolate`.
  - `GetRotation`, `GetScale` and the skybox and camera helpers.
  - The distortion UV arrays that `CreateDistortMesh` fills through
    `ComputeDistortion`, and the returned `Mesh` object.
- `SteamVRUtils.CreateDistortMesh` requires `resU` and `resV` of at least
  2. With fewer the source divides by zero.
- `SteamVRUtils.EventRegistry.Send`: the arguments passed to the handlers
  are not modelled. Null handlers and null message keys are not modelled.
- `Tutorial.TutorialController`: the source declares `CurrentSide` and
  never assigns it, so it stays `Left`. The model keeps that.
- `Tutorial.TutorialController.Update`: when no fader exists as the second
  side ends, the source dereferences null. The model reports this as
  `NoFader` and leaves the tutorial enabled.
- `Levitation.Levitatable`'s optional mesh renderer is `Option<bool>`,
  meaning absent or present with its visibility.
